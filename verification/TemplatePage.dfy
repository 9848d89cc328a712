/** FuncReadTemplate: the placeholders of a page are filled by one String::replace after the
other on the whole text. */
module TemplatePage {

  // ---- String::replace ------------------------------------------------------------------

  /** All occurrences, found from left to right without overlap: how a value that is not longer
      than the key is put in. */
  function ReplaceForward(s: string, find: string, val: string): string
    requires find != []
    decreases |s|
  {
    if |s| < |find| then s
    else if s[..|find|] == find then val + ReplaceForward(s[|find|..], find, val)
    else [s[0]] + ReplaceForward(s[1..], find, val)
  }

  /** The occurrences that start before position k, found from right to left: how a longer value
      is put in.  Text that has been put in can take part in an occurrence further left. */
  function ReplaceBackward(s: string, k: nat, find: string, val: string): string
    requires find != [] && k <= |s|
    decreases k
  {
    if k == 0 then s
    else if Starts(s, k - 1, find) then ReplaceBackward(s[..k - 1] + val + s[k - 1 + |find|..], k - 1, find, val)
    else ReplaceBackward(s, k - 1, find, val)
  }

  predicate Starts(s: string, i: nat, find: string)
  {
    i + |find| <= |s| && s[i..i + |find|] == find
  }

  function Replace(s: string, find: string, val: string): string
    requires find != []
  {
    if |val| <= |find| then ReplaceForward(s, find, val) else ReplaceBackward(s, |s|, find, val)
  }

  /** An argument pair; its key is the name between two percent signs. */
  datatype Arg = Arg(name: string, value: string)

  function Key(name: string): string { "%" + name + "%" }

  function ReplaceAll(s: string, args: seq<Arg>): string
    decreases |args|
  {
    if args == [] then s else ReplaceAll(Replace(s, Key(args[0].name), args[0].value), args[1..])
  }

  method FuncReadTemplate(text: string, args: seq<Arg>) returns (file: string)
    ensures file == ReplaceAll(text, args)
  {
    file := text;
    for i := 0 to |args|
      invariant ReplaceAll(file, args[i..]) == ReplaceAll(text, args)
    {
      assert args[i..][1..] == args[i + 1..];
      file := Replace(file, Key(args[i].name), args[i].value);
    }
  }

  // ---- Pages as text and placeholders ------------------------------------------------------

  /** A placeholder and the text up to the next one. */
  datatype Hole = Hole(name: string, text: string)
  datatype Page = Page(first: string, holes: seq<Hole>)

  predicate PercentFree(s: string) { '%' !in s }

  ghost predicate WellFormed(p: Page)
  {
    PercentFree(p.first) && forall i :: 0 <= i < |p.holes| ==> Proper(p.holes[i])
  }

  predicate Proper(h: Hole) { PercentFree(h.name) && h.name != [] && PercentFree(h.text) }

  function Flat(p: Page): string { p.first + FlatHoles(p.holes) }

  function FlatHoles(holes: seq<Hole>): string
  {
    if holes == [] then [] else Key(holes[0].name) + (holes[0].text + FlatHoles(holes[1..]))
  }

  /** Every placeholder with a value in `env` filled, in one pass. */
  function Filled(p: Page, env: map<string, string>): Page
    decreases |p.holes|
  {
    if p.holes == [] then p
    else
      var h, rest := p.holes[0], p.holes[1..];
      if h.name in env then Filled(Page(p.first + env[h.name] + h.text, rest), env)
      else
        var r := Filled(Page(h.text, rest), env);
        Page(p.first, [Hole(h.name, r.first)] + r.holes)
  }

  /** Somewhere the text between two placeholders spells `name`, so that their inner percent
      signs look like the key, and the one that the scan meets first is still there. */
  ghost predicate Clash(holes: seq<Hole>, name: string, val: string)
  {
    if |val| <= |Key(name)| then ClashForward(holes, name) else ClashBackward(holes, name)
  }

  ghost predicate ClashForward(holes: seq<Hole>, name: string)
  {
    exists i :: 0 <= i < |holes| - 1 && holes[i].name != name && holes[i].text == name
  }

  ghost predicate ClashBackward(holes: seq<Hole>, name: string)
  {
    exists i :: 0 <= i < |holes| - 1 && holes[i + 1].name != name && holes[i].text == name
  }

  // ---- Scanning -----------------------------------------------------------------------------

  lemma StepOver(c: char, rest: string, name: string, val: string)
    requires c != '%'
    ensures ReplaceForward([c] + rest, Key(name), val) == [c] + ReplaceForward(rest, Key(name), val)
  {
    var s := [c] + rest;
    assert s[1..] == rest;
    if |s| < |Key(name)| {
      assert ReplaceForward(rest, Key(name), val) == rest;
    } else {
      assert s[..|Key(name)|][0] == c;
    }
  }

  lemma {:induction false} ScanText(t: string, rest: string, name: string, val: string)
    requires PercentFree(t)
    ensures ReplaceForward(t + rest, Key(name), val) == t + ReplaceForward(rest, Key(name), val)
  {
    if t == [] {
      assert t + rest == rest;
    } else {
      assert t + rest == [t[0]] + (t[1..] + rest);
      StepOver(t[0], t[1..] + rest, name, val);
      ScanText(t[1..], rest, name, val);
    }
  }

  lemma ScanKey(rest: string, name: string, val: string)
    ensures ReplaceForward(Key(name) + rest, Key(name), val) == val + ReplaceForward(rest, Key(name), val)
  {
    var s := Key(name) + rest;
    assert s[..|Key(name)|] == Key(name) && s[|Key(name)|..] == rest;
  }

  /** A percent sign that does not start the key is copied. */
  lemma ScanPercent(t: string, rest: string, name: string, val: string)
    requires PercentFree(t) && PercentFree(name)
    requires rest == [] || (rest[0] == '%' && t != name)
    ensures ReplaceForward("%" + (t + rest), Key(name), val) == "%" + (t + ReplaceForward(rest, Key(name), val))
  {
    var s, key := "%" + (t + rest), Key(name);
    assert s[1..] == t + rest;
    ScanText(t, rest, name, val);
    if |s| >= |key| && s[..|key|] == key {
      KeyShape(t, rest, name);
    }
    if |s| < |key| {
      assert ReplaceForward(t + rest, key, val) == t + rest;
    }
  }

  /** The key can only start there if the text up to the next percent sign is its name. */
  lemma KeyShape(t: string, rest: string, name: string)
    requires PercentFree(t) && PercentFree(name)
    requires var s := "%" + (t + rest); |s| >= |Key(name)| && s[..|Key(name)|] == Key(name)
    requires rest == [] || rest[0] == '%'
    ensures rest != [] && t == name
  {
    var s, key, n := "%" + (t + rest), Key(name), |name|;
    assert s[n + 1] == s[..|key|][n + 1] == '%';
    assert s[1 + n] == (t + rest)[n];
    assert forall i :: 0 <= i < n ==> s[..|key|][i + 1] == name[i];
    assert forall i :: 0 <= i < n ==> (t + rest)[i] == name[i];
    assert |t| <= n;
    assert rest != [] ==> (t + rest)[|t|] == '%';
    assert (t + rest)[..|t|] == t;
  }

  // ---- One replacement --------------------------------------------------------------------------

  lemma {:induction false} FilledShift(p: Page, pre: string, env: map<string, string>)
    ensures Filled(Page(pre + p.first, p.holes), env) == Page(pre + Filled(p, env).first, Filled(p, env).holes)
    decreases |p.holes|
  {
    if p.holes != [] {
      var h, rest := p.holes[0], p.holes[1..];
      if h.name in env {
        var mid := p.first + env[h.name] + h.text;
        assert pre + p.first + env[h.name] + h.text == pre + mid;
        FilledShift(Page(mid, rest), pre, env);
      }
    }
  }

  /** The flat form of a filled page, one placeholder at a time. */
  lemma FilledFlat(p: Page, env: map<string, string>)
    requires p.holes != []
    ensures var h := p.holes[0];
            var later := Flat(Filled(Page(h.text, p.holes[1..]), env));
            Flat(Filled(p, env)) == p.first + (if h.name in env then env[h.name] + later else Key(h.name) + later)
  {
    var h, rest := p.holes[0], p.holes[1..];
    var q := Page(h.text, rest);
    if h.name in env {
      FilledShift(q, p.first + env[h.name], env);
    } else {
      var r := Filled(q, env);
      var out := [Hole(h.name, r.first)] + r.holes;
      assert out[1..] == r.holes;
    }
  }

  /** The scan from the left fills that placeholder in the page exactly when nothing clashes. */
  lemma {:induction false} ForwardFills(p: Page, name: string, val: string)
    requires WellFormed(p) && PercentFree(name) && name != [] && PercentFree(val)
    ensures ReplaceForward(Flat(p), Key(name), val) == Flat(Filled(p, map[name := val])) <==> !ClashForward(p.holes, name)
    decreases |p.holes|
  {
    if p.holes == [] {
      ScanText(p.first, [], name, val);
      assert ReplaceForward([], Key(name), val) == [];
    } else {
      var h, rest := p.holes[0], p.holes[1..];
      assert Proper(h);
      var q := Page(h.text, rest);
      assert WellFormed(q) by {
        assert forall i :: 0 <= i < |rest| ==> rest[i] == p.holes[i + 1];
      }
      ForwardFills(q, name, val);
      ClashTail(p.holes, name);
      if h.name == name {
        HoleGoes(p, name, val);
      } else {
        HoleStays(p, name, val);
      }
    }
  }

  lemma ClashTail(holes: seq<Hole>, name: string)
    requires holes != []
    ensures ClashForward(holes, name) <==>
            ClashForward(holes[1..], name) || (|holes| > 1 && holes[0].name != name && holes[0].text == name)
  {
    var rest := holes[1..];
    assert forall i :: 0 <= i < |rest| ==> rest[i] == holes[i + 1];
    if ClashForward(holes, name) {
      var i :| 0 <= i < |holes| - 1 && holes[i].name != name && holes[i].text == name;
      if i > 0 {
        assert rest[i - 1] == holes[i];
      }
    }
  }

  lemma SameTail(a: string, x: string, y: string)
    ensures a + x == a + y <==> x == y
  {
    assert (a + x)[|a|..] == x && (a + y)[|a|..] == y;
  }

  lemma SameCore(a: string, b: string, x: string, y: string)
    ensures a + ("%" + (b + x)) == a + ("%" + (b + y)) <==> x == y
  {
    SameTail(b, x, y);
    SameTail("%", b + x, b + y);
    SameTail(a, "%" + (b + x), "%" + (b + y));
  }

  /** The case of a placeholder with the key's name. */
  lemma HoleGoes(p: Page, name: string, val: string)
    requires WellFormed(p) && p.holes != [] && p.holes[0].name == name
    ensures var q := Page(p.holes[0].text, p.holes[1..]);
            ReplaceForward(Flat(p), Key(name), val) == Flat(Filled(p, map[name := val]))
            <==> ReplaceForward(Flat(q), Key(name), val) == Flat(Filled(q, map[name := val]))
  {
    var q := Page(p.holes[0].text, p.holes[1..]);
    var x, y := ReplaceForward(Flat(q), Key(name), val), Flat(Filled(q, map[name := val]));
    ScanText(p.first, FlatHoles(p.holes), name, val);
    ScanKey(Flat(q), name, val);
    FilledFlat(p, map[name := val]);
    SameTail(val, x, y);
    SameTail(p.first, val + x, val + y);
  }

  /** Up to the closing percent sign of a placeholder with another name the text is copied. */
  lemma ScanHole(p: Page, name: string, val: string)
    requires WellFormed(p) && PercentFree(name) && p.holes != [] && p.holes[0].name != name
    ensures var h := p.holes[0];
            var close := "%" + (h.text + FlatHoles(p.holes[1..]));
            ReplaceForward(Flat(p), Key(name), val) == p.first + ("%" + (h.name + ReplaceForward(close, Key(name), val)))
  {
    var h := p.holes[0];
    assert Proper(h);
    var close := "%" + (h.text + FlatHoles(p.holes[1..]));
    ScanText(p.first, FlatHoles(p.holes), name, val);
    assert FlatHoles(p.holes) == "%" + (h.name + close);
    ScanPercent(h.name, close, name, val);
  }

  lemma FilledHole(p: Page, env: map<string, string>)
    requires p.holes != [] && p.holes[0].name !in env
    ensures var h := p.holes[0];
            Flat(Filled(p, env)) == p.first + ("%" + (h.name + ("%" + Flat(Filled(Page(h.text, p.holes[1..]), env)))))
  {
    var h := p.holes[0];
    var later := Flat(Filled(Page(h.text, p.holes[1..]), env));
    FilledFlat(p, env);
    assert Key(h.name) + later == "%" + (h.name + ("%" + later));
  }

  /** What follows the closing percent sign, with and without a clash. */
  lemma AfterHole(text: string, rest: seq<Hole>, name: string, val: string, later: string)
    requires PercentFree(text) && (rest != [] ==> Proper(rest[0])) && PercentFree(name) && PercentFree(val)
    ensures ReplaceForward("%" + (text + FlatHoles(rest)), Key(name), val) == "%" + later
            <==> (rest == [] || text != name) && ReplaceForward(text + FlatHoles(rest), Key(name), val) == later
  {
    var tail := FlatHoles(rest);
    if rest == [] || text != name {
      ScanPercent(text, tail, name, val);
      ScanText(text, tail, name, val);
      SameTail("%", ReplaceForward(text + tail, Key(name), val), later);
    } else {
      ClashEats(rest, name, val, later);
    }
  }

  /** The case of a placeholder with another name. */
  lemma HoleStays(p: Page, name: string, val: string)
    requires WellFormed(p) && PercentFree(name) && PercentFree(val)
    requires p.holes != [] && p.holes[0].name != name
    ensures var q := Page(p.holes[0].text, p.holes[1..]);
            ReplaceForward(Flat(p), Key(name), val) == Flat(Filled(p, map[name := val]))
            <==> (|p.holes| == 1 || p.holes[0].text != name)
                 && ReplaceForward(Flat(q), Key(name), val) == Flat(Filled(q, map[name := val]))
  {
    var h, rest := p.holes[0], p.holes[1..];
    assert Proper(h);
    assert rest != [] ==> Proper(rest[0]) by { assert rest != [] ==> rest[0] == p.holes[1]; }
    var later := Flat(Filled(Page(h.text, rest), map[name := val]));
    ScanHole(p, name, val);
    FilledHole(p, map[name := val]);
    SameCore(p.first, h.name, ReplaceForward("%" + (h.text + FlatHoles(rest)), Key(name), val), "%" + later);
    AfterHole(h.text, rest, name, val, later);
  }

  /** In a clash the two inner percent signs are taken for the key and disappear. */
  lemma ClashEats(rest: seq<Hole>, name: string, val: string, later: string)
    requires rest != [] && Proper(rest[0]) && PercentFree(name) && PercentFree(val)
    ensures ReplaceForward("%" + (name + FlatHoles(rest)), Key(name), val) != "%" + later
  {
    var next, more := rest[0].name, "%" + (rest[0].text + FlatHoles(rest[1..]));
    assert "%" + (name + FlatHoles(rest)) == Key(name) + (next + more);
    EatenStart(next, more, name, val);
    assert ("%" + later)[0] == '%';
  }

  lemma EatenStart(next: string, more: string, name: string, val: string)
    requires PercentFree(next) && next != [] && PercentFree(val)
    ensures var out := ReplaceForward(Key(name) + (next + more), Key(name), val); out != [] && out[0] != '%'
  {
    ScanKey(next + more, name, val);
    ScanText(next, more, name, val);
    var tail := next + ReplaceForward(more, Key(name), val);
    assert tail[0] == next[0];
    assert (val + tail)[0] == if val == [] then tail[0] else val[0];
  }

  // ---- The scan from the right -----------------------------------------------------------------

  /** Positions in the second part are scanned first and touch nothing before it. */
  lemma {:induction false} BackwardFront(a: string, b: string, k: nat, find: string, val: string)
    requires find != [] && k <= |b|
    ensures ReplaceBackward(a + b, |a| + k, find, val) == ReplaceBackward(a + ReplaceBackward(b, k, find, val), |a|, find, val)
    decreases k
  {
    if k > 0 {
      StartsShift(a, b, k - 1, find);
      if Starts(b, k - 1, find) {
        var c := b[..k - 1] + val + b[k - 1 + |find|..];
        CutShift(a, b, k - 1, |find|, val);
        BackwardFront(a, c, k - 1, find, val);
      } else {
        BackwardFront(a, b, k - 1, find, val);
      }
    }
  }

  lemma StartsShift(a: string, b: string, i: nat, find: string)
    ensures Starts(a + b, |a| + i, find) <==> Starts(b, i, find)
  {
    if i + |find| <= |b| {
      assert (a + b)[|a| + i..|a| + i + |find|] == b[i..i + |find|];
    }
  }

  lemma CutShift(a: string, b: string, i: nat, n: nat, val: string)
    requires i + n <= |b|
    ensures (a + b)[..|a| + i] + val + (a + b)[|a| + i + n..] == a + (b[..i] + val + b[i + n..])
  {
    assert (a + b)[..|a| + i] == a + b[..i];
    assert (a + b)[|a| + i + n..] == b[i + n..];
  }

  lemma StartsWithPercent(s: string, i: nat, name: string)
    ensures Starts(s, i, Key(name)) ==> s[i] == '%'
  {
    if Starts(s, i, Key(name)) {
      assert s[i] == s[i..i + |Key(name)|][0];
    }
  }

  /** No key starts where there is no percent sign. */
  lemma {:induction false} BackwardSkips(s: string, j: nat, k: nat, name: string, val: string)
    requires j <= k <= |s| && forall i :: j <= i < k ==> s[i] != '%'
    ensures ReplaceBackward(s, k, Key(name), val) == ReplaceBackward(s, j, Key(name), val)
    decreases k
  {
    if j < k {
      StartsWithPercent(s, k - 1, name);
      BackwardSkips(s, j, k - 1, name, val);
    }
  }

  /** A key starts at a percent sign exactly when its name and another one follow. */
  predicate Spells(s: string, name: string) { |s| > |name| && s[..|name|] == name && s[|name|] == '%' }

  lemma StartsAtPercent(u: string, s: string, name: string)
    ensures Starts(u + ("%" + s), |u|, Key(name)) <==> Spells(s, name)
  {
    var t, key, n := "%" + s, Key(name), |name|;
    StartsShift(u, t, 0, key);
    if Starts(t, 0, key) {
      assert t[..n + 2] == key;
      assert s[..n] == t[..n + 2][1..n + 1] == name;
      assert s[n] == t[..n + 2][n + 1] == '%';
    }
    if Spells(s, name) {
      assert t[..n + 2] == "%" + s[..n] + [s[n]] == key;
    }
  }

  /** One percent sign met by the scan. */
  lemma BackwardPercent(u: string, s: string, name: string, val: string)
    ensures ReplaceBackward(u + ("%" + s), |u| + 1, Key(name), val)
            == ReplaceBackward(if Spells(s, name) then u + (val + s[|name| + 1..]) else u + ("%" + s), |u|, Key(name), val)
  {
    StartsAtPercent(u, s, name);
    if Spells(s, name) {
      var t := "%" + s;
      CutShift(u, t, 0, |Key(name)|, val);
      assert t[|Key(name)|..] == s[|name| + 1..];
      assert t[..0] + val + t[0 + |Key(name)|..] == val + s[|name| + 1..];
      assert (u + t)[..|u|] + val + (u + t)[|u| + |Key(name)|..] == u + (val + s[|name| + 1..]);
    }
  }

  /** A percent-free text shorter than what stands before the next percent sign spells nothing. */
  lemma LongerSpellsNothing(t: string, rest: string, name: string)
    requires PercentFree(t) && |t| > |name|
    ensures !Spells(t + rest, name)
  {
    assert (t + rest)[|name|] == t[|name|];
  }

  lemma ExactSpells(t: string, rest: string, name: string)
    requires PercentFree(t) && PercentFree(name)
    ensures Spells(t + ("%" + rest), name) <==> t == name
  {
    var s := t + ("%" + rest);
    if Spells(s, name) {
      assert s[|t|] == '%';
      assert forall i :: 0 <= i < |name| ==> s[..|name|][i] == s[i];
      assert |t| == |name|;
      assert s[..|t|] == t;
    }
    if t == name {
      assert s[..|name|] == name && s[|name|] == '%';
    }
  }

  /** The scan over a placeholder and the text before it, when what follows has been scanned. */
  lemma BackwardHole(first: string, h: string, b: string, name: string, val: string)
    requires PercentFree(first) && PercentFree(h) && PercentFree(name) && PercentFree(val) && |val| > |Key(name)|
    ensures var u := first + ("%" + h);
            ReplaceBackward(u + ("%" + b), |u| + 1, Key(name), val)
            == if Spells(b, name) then u + (val + b[|name| + 1..])
               else if h == name then first + (val + b)
               else u + ("%" + b)
  {
    var u := first + ("%" + h);
    BackwardPercent(u, b, name, val);
    if Spells(b, name) {
      var tail := b[|name| + 1..];
      BackwardOpening(first, h, val + tail, name, val);
      assert h + (val + tail) == (h + val) + tail;
      LongerSpellsNothing(h + val, tail, name);
    } else {
      BackwardOpening(first, h, "%" + b, name, val);
      ExactSpells(h, b, name);
      if h == name {
        assert (h + ("%" + b))[|name| + 1..] == b;
      }
    }
  }

  /** From the end of a placeholder's name down to the start of the text. */
  lemma BackwardOpening(first: string, h: string, s: string, name: string, val: string)
    requires PercentFree(first) && PercentFree(h)
    ensures var u := first + ("%" + h);
            ReplaceBackward(u + s, |u|, Key(name), val)
            == if Spells(h + s, name) then first + (val + (h + s)[|name| + 1..]) else u + s
  {
    var u := first + ("%" + h);
    var all := first + ("%" + (h + s));
    assert u + s == all;
    assert forall i :: |first| + 1 <= i < |u| ==> all[i] == h[i - |first| - 1];
    BackwardSkips(all, |first| + 1, |u|, name, val);
    BackwardPercent(first, h + s, name, val);
    var out := if Spells(h + s, name) then first + (val + (h + s)[|name| + 1..]) else all;
    assert forall i :: 0 <= i < |first| ==> out[i] == first[i];
    BackwardSkips(out, 0, |first|, name, val);
  }

  /** What has been filled in spells the name exactly at a clash. */
  lemma FilledSpells(q: Page, name: string, val: string)
    requires WellFormed(q) && PercentFree(name) && PercentFree(val) && |val| > |Key(name)|
    ensures Spells(Flat(Filled(q, map[name := val])), name)
            <==> q.holes != [] && q.holes[0].name != name && q.first == name
  {
    var env := map[name := val];
    if q.holes == [] {
      assert Flat(q) == q.first;
      assert Spells(q.first, name) ==> '%' in q.first;
    } else {
      assert Proper(q.holes[0]);
      FilledFlat(q, env);
      HoleSpells(q.first, q.holes[0].name, Flat(Filled(Page(q.holes[0].text, q.holes[1..]), env)), name, val);
    }
  }

  lemma HoleSpells(first: string, h: string, later: string, name: string, val: string)
    requires PercentFree(first) && PercentFree(name) && PercentFree(val) && |val| > |Key(name)|
    ensures Spells(first + (if h == name then val + later else Key(h) + later), name) <==> h != name && first == name
  {
    if h == name {
      assert first + (val + later) == (first + val) + later;
      LongerSpellsNothing(first + val, later, name);
    } else {
      assert Key(h) + later == "%" + (h + ("%" + later));
      ExactSpells(first, h + ("%" + later), name);
    }
  }

  lemma ClashBackwardTail(p: Page, name: string)
    requires p.holes != []
    ensures var q := Page(p.holes[0].text, p.holes[1..]);
            ClashBackward(p.holes, name) <==>
            ClashBackward(q.holes, name) || (q.holes != [] && q.holes[0].name != name && q.first == name)
  {
    var rest := p.holes[1..];
    assert forall i :: 0 <= i < |rest| ==> rest[i] == p.holes[i + 1];
    if ClashBackward(p.holes, name) {
      var i :| 0 <= i < |p.holes| - 1 && p.holes[i + 1].name != name && p.holes[i].text == name;
      if i > 0 {
        assert rest[i - 1] == p.holes[i] && rest[i] == p.holes[i + 1];
      }
    }
    if ClashBackward(rest, name) {
      var i :| 0 <= i < |rest| - 1 && rest[i + 1].name != name && rest[i].text == name;
      assert p.holes[i + 1] == rest[i] && p.holes[i + 1 + 1] == rest[i + 1];
    }
    if rest != [] && rest[0].name != name && p.holes[0].text == name {
      assert p.holes[0 + 1] == rest[0];
    }
  }

  /** Where the scan eats the closing percent sign the result is not the filled page. */
  lemma EatenDiffers(first: string, h: string, tail: string, name: string, val: string, later: string)
    requires PercentFree(val) && val != []
    ensures first + ("%" + h) + (val + tail) != first + (if h == name then val + later else "%" + (h + ("%" + later)))
  {
    var x := first + ("%" + h) + (val + tail);
    if h == name {
      assert x[|first|] == '%';
      assert (first + (val + later))[|first|] == val[0];
    } else {
      var i := |first| + 1 + |h|;
      assert x[i] == val[0];
      assert (first + ("%" + (h + ("%" + later))))[i] == '%';
    }
  }

  /** The scan from the right fills that placeholder in the page exactly when nothing clashes. */
  lemma {:induction false} BackwardFills(p: Page, name: string, val: string)
    requires WellFormed(p) && PercentFree(name) && name != [] && PercentFree(val) && |val| > |Key(name)|
    ensures ReplaceBackward(Flat(p), |Flat(p)|, Key(name), val) == Flat(Filled(p, map[name := val]))
            <==> !ClashBackward(p.holes, name)
    decreases |p.holes|
  {
    if p.holes == [] {
      assert Flat(p) == p.first;
      BackwardSkips(p.first, 0, |p.first|, name, val);
    } else {
      var q := Page(p.holes[0].text, p.holes[1..]);
      assert Proper(p.holes[0]);
      assert WellFormed(q) by {
        assert forall i :: 0 <= i < |q.holes| ==> q.holes[i] == p.holes[i + 1];
      }
      BackwardFills(q, name, val);
      FilledSpells(q, name, val);
      ClashBackwardTail(p, name);
      BackwardStep(p, q, name, val);
    }
  }

  lemma FlatSplits(p: Page, q: Page)
    requires p.holes != [] && q == Page(p.holes[0].text, p.holes[1..])
    ensures Flat(p) == (p.first + ("%" + p.holes[0].name) + "%") + Flat(q)
  {
    var h := p.holes[0].name;
    assert Key(h) + Flat(q) == "%" + (h + ("%" + Flat(q)));
  }

  lemma BackwardStep(p: Page, q: Page, name: string, val: string)
    requires p.holes != [] && q == Page(p.holes[0].text, p.holes[1..])
    requires PercentFree(p.first) && Proper(p.holes[0])
    requires PercentFree(name) && PercentFree(val) && |val| > |Key(name)|
    ensures var b := ReplaceBackward(Flat(q), |Flat(q)|, Key(name), val);
            var later := Flat(Filled(q, map[name := val]));
            ReplaceBackward(Flat(p), |Flat(p)|, Key(name), val) == Flat(Filled(p, map[name := val]))
            <==> b == later && !Spells(b, name)
  {
    var h, f := p.holes[0].name, Flat(q);
    FlatSplits(p, q);
    BackwardWhole(p.first, h, f, name, val);
    FilledFlat(p, map[name := val]);
    HoleAgrees(p.first, h, ReplaceBackward(f, |f|, Key(name), val), Flat(Filled(q, map[name := val])), name, val);
  }

  lemma BackwardWhole(first: string, h: string, f: string, name: string, val: string)
    requires PercentFree(first) && PercentFree(h) && PercentFree(name) && PercentFree(val) && |val| > |Key(name)|
    ensures var s := first + ("%" + h) + "%" + f;
            var b := ReplaceBackward(f, |f|, Key(name), val);
            ReplaceBackward(s, |s|, Key(name), val)
            == if Spells(b, name) then first + ("%" + h) + (val + b[|name| + 1..])
               else if h == name then first + (val + b)
               else first + ("%" + h) + ("%" + b)
  {
    var u, b := first + ("%" + h), ReplaceBackward(f, |f|, Key(name), val);
    BackwardFront(u + "%", f, |f|, Key(name), val);
    Regroup(u, b);
    BackwardHole(first, h, b, name, val);
  }

  lemma Regroup(u: string, b: string)
    ensures u + "%" + b == u + ("%" + b) && |u + "%"| == |u| + 1
  {
  }

  lemma HoleAgrees(first: string, h: string, b: string, later: string, name: string, val: string)
    requires PercentFree(val) && val != []
    ensures (if Spells(b, name) then first + ("%" + h) + (val + b[|name| + 1..])
             else if h == name then first + (val + b)
             else first + ("%" + h) + ("%" + b))
            == first + (if h == name then val + later else Key(h) + later)
            <==> b == later && !Spells(b, name)
  {
    assert Key(h) + later == "%" + (h + ("%" + later));
    if Spells(b, name) {
      EatenDiffers(first, h, b[|name| + 1..], name, val, later);
    } else if h == name {
      SameTail(first, val + b, val + later);
      SameTail(val, b, later);
    } else {
      assert first + ("%" + h) + ("%" + b) == first + ("%" + (h + ("%" + b)));
      SameCore(first, h, "%" + b, "%" + later);
      SameTail("%", b, later);
    }
  }

  /** Replacing one key in the flat text, in the direction that the lengths call for, equals
      filling that placeholder in the page exactly when nothing clashes. */
  lemma ReplaceFills(p: Page, name: string, val: string)
    requires WellFormed(p) && PercentFree(name) && name != [] && PercentFree(val)
    ensures Replace(Flat(p), Key(name), val) == Flat(Filled(p, map[name := val])) <==> !Clash(p.holes, name, val)
  {
    if |val| <= |Key(name)| {
      ForwardFills(p, name, val);
    } else {
      BackwardFills(p, name, val);
    }
  }

  // ---- All replacements ----------------------------------------------------------------------------

  /** The values by name; the first argument with a name counts. */
  function Env(args: seq<Arg>): map<string, string>
  {
    if args == [] then map[] else Env(args[1..])[args[0].name := args[0].value]
  }

  ghost predicate GoodArgs(args: seq<Arg>)
  {
    forall i :: 0 <= i < |args| ==> PercentFree(args[i].name) && args[i].name != [] && PercentFree(args[i].value)
  }

  /** No replacement clashes when its turn comes. */
  ghost predicate NeverClashes(p: Page, args: seq<Arg>)
    decreases |args|
  {
    args == [] || (!Clash(p.holes, args[0].name, args[0].value) && NeverClashes(Filled(p, map[args[0].name := args[0].value]), args[1..]))
  }

  lemma {:induction false} FilledIsWellFormed(p: Page, env: map<string, string>)
    requires WellFormed(p) && forall k :: k in env ==> PercentFree(env[k])
    ensures WellFormed(Filled(p, env))
    decreases |p.holes|
  {
    if p.holes != [] {
      var h, rest := p.holes[0], p.holes[1..];
      assert Proper(h);
      assert forall i :: 0 <= i < |rest| ==> rest[i] == p.holes[i + 1];
      if h.name in env {
        FilledIsWellFormed(Page(p.first + env[h.name] + h.text, rest), env);
      } else {
        FilledIsWellFormed(Page(h.text, rest), env);
      }
    }
  }

  /** Filling twice is filling once with both, the earlier values first. */
  lemma {:induction false} FilledTwice(p: Page, one: map<string, string>, two: map<string, string>)
    ensures Filled(Filled(p, one), two) == Filled(p, two + one)
    decreases |p.holes|
  {
    if p.holes != [] {
      var h, rest := p.holes[0], p.holes[1..];
      var q := Page(h.text, rest);
      FilledTwice(q, one, two);
      if h.name in one {
        FilledShift(q, p.first + one[h.name], one);
        FilledShift(q, p.first + one[h.name], two + one);
        FilledShift(Filled(q, one), p.first + one[h.name], two);
      } else {
        var r := Filled(q, one);
        var out := Page(p.first, [Hole(h.name, r.first)] + r.holes);
        assert out.holes[1..] == r.holes && Filled(p, one) == out;
        if h.name in two {
          FilledShift(r, p.first + two[h.name], two);
          FilledShift(q, p.first + two[h.name], two + one);
        }
      }
    }
  }

  lemma {:induction false} FilledNothing(p: Page)
    ensures Filled(p, map[]) == p
    decreases |p.holes|
  {
    if p.holes != [] {
      FilledNothing(Page(p.holes[0].text, p.holes[1..]));
    }
  }

  /** Without clashes the sequence of replacements is one simultaneous substitution. */
  lemma {:induction false} TemplateRenders(p: Page, args: seq<Arg>)
    requires WellFormed(p) && GoodArgs(args) && NeverClashes(p, args)
    ensures ReplaceAll(Flat(p), args) == Flat(Filled(p, Env(args)))
    decreases |args|
  {
    if args == [] {
      FilledNothing(p);
    } else {
      var one := map[args[0].name := args[0].value];
      ReplaceFills(p, args[0].name, args[0].value);
      FilledIsWellFormed(p, one);
      assert forall i :: 0 <= i < |args[1..]| ==> args[1..][i] == args[i + 1];
      TemplateRenders(Filled(p, one), args[1..]);
      FilledTwice(p, one, Env(args[1..]));
      assert Env(args[1..]) + one == Env(args);
    }
  }

  /** Then the order of the arguments does not matter. */
  lemma OrderDoesNotMatter(p: Page, args: seq<Arg>, others: seq<Arg>)
    requires WellFormed(p) && GoodArgs(args) && GoodArgs(others)
    requires NeverClashes(p, args) && NeverClashes(p, others) && Env(args) == Env(others)
    ensures ReplaceAll(Flat(p), args) == ReplaceAll(Flat(p), others)
  {
    TemplateRenders(p, args);
    TemplateRenders(p, others);
  }
}
