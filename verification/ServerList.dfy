/** The loop in setup() that loads /data/ssh_settings.csv. */
module ServerList {
  import opened ArduinoString

  datatype Entry = Entry(host: string, user: string, password: string)

  /** Where the first line of a text ends. */
  function LineEnd(text: string): (i: nat)
    ensures i <= |text|
  {
    if text == [] || text[0] == '\n' then 0 else 1 + LineEnd(text[1..])
  }

  /** The first line of a nonempty text, and what follows its newline. */
  function FirstLine(text: string): string { text[..LineEnd(text)] }

  function Remaining(text: string): (r: string)
    ensures text != [] ==> |r| < |text|
  {
    if LineEnd(text) == |text| then [] else text[LineEnd(text) + 1..]
  }

  /** The entry that a trimmed nonempty line is cut into. */
  function Cut(line: string): Entry
  {
    var first := IndexOf(line, ',', 0);
    var second := IndexOf(line, ',', first + 1);
    Entry(Substring(line, 0, first), Substring(line, first + 1, second), Substring(line, second + 1, |line|))
  }

  /** A field as it is kept: trimmed, and copied as a C string. */
  function Stored(s: string): string { CStr(Trim(s)) }

  function Kept(e: Entry): Entry { Entry(Stored(e.host), Stored(e.user), Stored(e.password)) }

  function ParseLine(line: string): Entry { Kept(Cut(line)) }

  /** What one line of the file contributes. */
  function LoadLine(text: string): seq<Entry>
  {
    var line := Trim(text);
    if line == [] then [] else [ParseLine(line)]
  }

  function Load(text: string): seq<Entry>
    decreases |text|
  {
    if text == [] then [] else LoadLine(FirstLine(text)) + Load(Remaining(text))
  }

  method LoadServers(text: string) returns (servers: seq<Entry>)
    ensures servers == Load(text)
  {
    servers := [];
    var rest := text;
    while rest != []
      invariant servers + Load(rest) == Load(text)
      decreases |rest|
    {
      LoadAppends(servers, rest);
      var line := Trim(FirstLine(rest));
      rest := Remaining(rest);
      if |line| == 0 {
        continue;
      }
      servers := servers + [ParseLine(line)];
    }
  }

  /** Loading a text after some entries: its first line, then the rest. */
  lemma LoadAppends(done: seq<Entry>, text: string)
    requires text != []
    ensures var line := Trim(FirstLine(text));
            done + Load(text) == (if |line| == 0 then done else done + [ParseLine(line)]) + Load(Remaining(text))
  {
    var found, later := LoadLine(FirstLine(text)), Load(Remaining(text));
    assert done + (found + later) == (done + found) + later;
    assert done + [] == done;
  }

  // ---- Printing ---------------------------------------------------------------------------

  /** Blanks before and after each field; those at the end may be a carriage return. */
  datatype Pads = Pads(h1: string, h2: string, u1: string, u2: string, p1: string, p2: string)

  /** A line of the file: an entry with its blanks, or nothing but blanks. */
  datatype Line = Row(e: Entry, pads: Pads) | Blank(pad: string)

  function Printed(e: Entry, p: Pads): string
  {
    (p.h1 + e.host + p.h2) + "," + (p.u1 + e.user + p.u2) + "," + (p.p1 + e.password + p.p2)
  }

  function LineText(l: Line): string
  {
    if l.Row? then Printed(l.e, l.pads) else l.pad
  }

  /** The lines with their newlines; the last one may be missing. */
  function Print(lines: seq<Line>, closed: bool): string
  {
    if lines == [] then []
    else LineText(lines[0]) + (if closed || |lines| > 1 then "\n" else "") + Print(lines[1..], closed)
  }

  function Entries(lines: seq<Line>): seq<Entry>
  {
    if lines == [] then [] else (if lines[0].Row? then [lines[0].e] else []) + Entries(lines[1..])
  }

  predicate CleanField(s: string) { NUL !in s && '\n' !in s }

  /** What an entry must satisfy to survive; the password may contain commas. */
  ghost predicate Clean(e: Entry)
  {
    && CleanField(e.host) && CleanField(e.user) && CleanField(e.password)
    && ',' !in e.host && ',' !in e.user
    && NoOuterSpace(e.host) && NoOuterSpace(e.user) && NoOuterSpace(e.password)
  }

  predicate Blanks(pad: string) { forall i :: 0 <= i < |pad| ==> IsSpace(pad[i]) && pad[i] != '\n' }

  predicate BlankPads(p: Pads) { Blanks(p.h1) && Blanks(p.h2) && Blanks(p.u1) && Blanks(p.u2) && Blanks(p.p1) && Blanks(p.p2) }

  ghost predicate Printable(l: Line)
  {
    if l.Row? then Clean(l.e) && BlankPads(l.pads) && |LineText(l)| < U32 else Blanks(l.pad)
  }

  // What the line's own trim takes off, and what it leaves of the first and the last field.

  function Leading(e: Entry, p: Pads): string { if e.host == [] then p.h1 + p.h2 else p.h1 }
  function Trailing(e: Entry, p: Pads): string { if e.password == [] then p.p1 + p.p2 else p.p2 }
  function First(e: Entry, p: Pads): string { if e.host == [] then [] else e.host + p.h2 }
  function Last(e: Entry, p: Pads): string { if e.password == [] then [] else p.p1 + e.password }

  function Core(e: Entry, p: Pads): string { First(e, p) + "," + (p.u1 + e.user + p.u2) + "," + Last(e, p) }

  lemma PrintedCore(e: Entry, p: Pads)
    ensures Printed(e, p) == Leading(e, p) + Core(e, p) + Trailing(e, p)
  {
    assert (p.h1 + e.host + p.h2) == Leading(e, p) + First(e, p);
    assert (p.p1 + e.password + p.p2) == Last(e, p) + Trailing(e, p);
    var a, b, c, d, m := Leading(e, p), First(e, p), Last(e, p), Trailing(e, p), "," + (p.u1 + e.user + p.u2) + ",";
    assert (a + b) + m + (c + d) == a + (b + m + c) + d;
    assert Core(e, p) == b + m + c;
    assert Printed(e, p) == (a + b) + m + (c + d);
  }

  lemma CoreEnds(e: Entry, p: Pads)
    requires Clean(e)
    ensures Core(e, p) != [] && NoOuterSpace(Core(e, p))
  {
    var s := Core(e, p);
    assert s[0] == if e.host == [] then ',' else e.host[0];
    assert s[|s| - 1] == if e.password == [] then ',' else e.password[|e.password| - 1];
  }

  lemma PrintedTrims(e: Entry, p: Pads)
    requires Clean(e) && BlankPads(p)
    ensures Trim(Printed(e, p)) == Core(e, p) != []
  {
    PrintedCore(e, p);
    CoreEnds(e, p);
    TrimPadded(Leading(e, p), Core(e, p), Trailing(e, p));
  }

  /** The blanks around a field are not kept. */
  lemma PaddedStored(pre: string, f: string, post: string)
    requires CleanField(f) && NoOuterSpace(f) && Blanks(pre) && Blanks(post)
    ensures Stored(pre + f + post) == f
  {
    if f == [] {
      assert pre + f + post == pre + post;
      TrimBlank(pre + post);
      CStrKeeps([]);
    } else {
      TrimPadded(pre, f, post);
      CStrKeeps(f);
    }
  }

  lemma FirstStored(e: Entry, p: Pads)
    requires Clean(e) && BlankPads(p)
    ensures Stored(First(e, p)) == e.host && Before(First(e, p))
  {
    assert [] + e.host + p.h2 == e.host + p.h2;
    PaddedStored([], e.host, p.h2);
    PaddedStored([], [], []);
  }

  lemma LastStored(e: Entry, p: Pads)
    requires Clean(e) && BlankPads(p)
    ensures Stored(Last(e, p)) == e.password
  {
    assert p.p1 + e.password + [] == p.p1 + e.password;
    PaddedStored(p.p1, e.password, []);
    PaddedStored([], [], []);
  }

  lemma ParsesBack(e: Entry, p: Pads)
    requires Clean(e) && BlankPads(p) && |Core(e, p)| < U32
    ensures ParseLine(Core(e, p)) == e
  {
    FirstStored(e, p);
    LastStored(e, p);
    PaddedStored(p.u1, e.user, p.u2);
    LineWithTwoCommas(First(e, p), p.u1 + e.user + p.u2, Last(e, p));
  }

  lemma {:induction false} LineEndIs(line: string, rest: string)
    requires '\n' !in line && (rest == [] || rest[0] == '\n')
    ensures LineEnd(line + rest) == |line|
  {
    var s := line + rest;
    if line == [] {
      assert s == rest;
    } else {
      assert s[0] == line[0] && s[1..] == line[1..] + rest;
      LineEndIs(line[1..], rest);
    }
  }

  lemma FirstLineOf(line: string, rest: string)
    requires '\n' !in line
    ensures FirstLine(line + "\n" + rest) == line && Remaining(line + "\n" + rest) == rest
    ensures FirstLine(line) == line && Remaining(line) == []
  {
    var s := line + ("\n" + rest);
    assert s == line + "\n" + rest;
    LineEndIs(line, "\n" + rest);
    assert s[..|line|] == line && s[|line| + 1..] == rest;
    LineEndIs(line, []);
    assert line + [] == line;
  }

  lemma OneLine(l: Line)
    requires Printable(l)
    ensures '\n' !in LineText(l)
  {
  }

  lemma RowLoads(e: Entry, p: Pads)
    requires Clean(e) && BlankPads(p) && |Printed(e, p)| < U32
    ensures LoadLine(Printed(e, p)) == [e]
  {
    PrintedTrims(e, p);
    PrintedCore(e, p);
    ParsesBack(e, p);
  }

  lemma LineLoads(l: Line)
    requires Printable(l)
    ensures LoadLine(LineText(l)) == if l.Row? then [l.e] else []
  {
    if l.Row? {
      RowLoads(l.e, l.pads);
    } else {
      TrimBlank(l.pad);
    }
  }

  /** Loading a printed list of servers gives back the list, in order, with blanks around the
      fields, blank lines, CRLF endings and a missing last newline allowed. */
  lemma {:induction false} LoadPrinted(lines: seq<Line>, closed: bool)
    requires forall i :: 0 <= i < |lines| ==> Printable(lines[i])
    ensures Load(Print(lines, closed)) == Entries(lines)
    decreases |lines|
  {
    if lines != [] {
      var l, rest := lines[0], Print(lines[1..], closed);
      LineLoads(l);
      OneLine(l);
      LoadPrinted(lines[1..], closed);
      FirstLineOf(LineText(l), rest);
      if closed || |lines| > 1 {
        assert Print(lines, closed) == LineText(l) + "\n" + rest;
      } else {
        assert rest == [];
        assert Print(lines, closed) == LineText(l);
        if LineText(l) == [] {
          assert Trim([]) == [];
        }
      }
    }
  }

  // ---- Every line ---------------------------------------------------------------------------

  /** The commas that a search finds: none after a NUL. */
  function CommaCount(s: string): nat
  {
    if s == [] || s[0] == NUL then 0 else (if s[0] == ',' then 1 else 0) + CommaCount(s[1..])
  }

  lemma {:induction false} NoCommaFrom(s: string, from: nat)
    requires from <= |s| && CommaCount(s[from..]) == 0
    ensures IndexOf(s, ',', from) == -1
    decreases |s| - from
  {
    if from < |s| && s[from] != NUL {
      assert s[from..][0] == s[from] && s[from..][1..] == s[from + 1..];
      NoCommaFrom(s, from + 1);
    }
  }

  /** A line without a comma is not rejected: the "not found" index makes it all three fields. */
  lemma LineWithoutComma(a: string)
    requires CommaCount(a) == 0 && |a| < U32
    ensures Cut(a) == Entry(a, a, a)
  {
    assert a[0..] == a;
    NoCommaFrom(a, 0);
    SubstringToMinusOne(a);
    assert a[0..|a|] == a;
  }

  /** What stands before a comma that is found. */
  predicate Before(s: string) { ',' !in s && NUL !in s }

  lemma TwoParts(a: string, b: string)
    ensures var s := a + "," + b; s[0..|a|] == a && s[|a| + 1..|s|] == b && s[|a| + 1..] == b && s[0..|s|] == s
  {
  }

  lemma OneCommaAt(a: string, b: string)
    requires Before(a) && CommaCount(b) == 0
    ensures var s := a + "," + b; IndexOf(s, ',', 0) == |a| && IndexOf(s, ',', |a| + 1) == -1
  {
    var s := a + "," + b;
    IndexOfIs(s, ',', 0, |a|);
    TwoParts(a, b);
    NoCommaFrom(s, |a| + 1);
  }

  /** With one comma the second index is the "not found" one: the user is the rest of the line
      and the password is the whole line. */
  lemma LineWithOneComma(a: string, b: string)
    requires Before(a) && CommaCount(b) == 0 && |a| + 1 + |b| < U32
    ensures Cut(a + "," + b) == Entry(a, b, a + "," + b)
  {
    OneCommaAt(a, b);
    OneCommaFields(a + "," + b, |a|);
    TwoParts(a, b);
  }

  lemma OneCommaFields(s: string, i: nat)
    requires i < |s| < U32
    ensures Substring(s, 0, i) == s[0..i]
    ensures Substring(s, i + 1, -1) == s[i + 1..|s|]
    ensures Substring(s, 0, |s|) == s[0..|s|]
  {
    SubstringIs(s, 0, i);
    SubstringIs(s, 0, |s|);
    assert Unsigned(-1) == U32 - 1;
  }

  lemma ThreeParts(a: string, b: string, c: string)
    ensures var s := a + "," + b + "," + c;
            && s[0..|a|] == a && s[|a| + 1..|a| + 1 + |b|] == b && s[|a| + 1 + |b| + 1..|s|] == c
  {
  }

  lemma TwoCommasAt(a: string, b: string, c: string)
    requires Before(a) && Before(b)
    ensures var s := a + "," + b + "," + c;
            IndexOf(s, ',', 0) == |a| && IndexOf(s, ',', |a| + 1) == |a| + 1 + |b|
  {
    var s := a + "," + b + "," + c;
    IndexOfIs(s, ',', 0, |a|);
    IndexOfIs(s, ',', |a| + 1, |a| + 1 + |b|);
  }

  /** With two commas or more the fields are the three parts; the last may contain commas. */
  lemma LineWithTwoCommas(a: string, b: string, c: string)
    requires Before(a) && Before(b) && |a| + 1 + |b| + 1 + |c| < U32
    ensures Cut(a + "," + b + "," + c) == Entry(a, b, c)
  {
    TwoCommasAt(a, b, c);
    ThreeParts(a, b, c);
  }

  /** Every line with a comma splits at its first one. */
  lemma {:induction false} FirstComma(s: string) returns (a: string, rest: string)
    requires CommaCount(s) > 0
    ensures s == a + "," + rest && Before(a) && CommaCount(s) == 1 + CommaCount(rest)
  {
    if s[0] == ',' {
      a, rest := [], s[1..];
    } else {
      a, rest := FirstComma(s[1..]);
      a := [s[0]] + a;
    }
  }

  /** What the three fields of a line should be: its parts around the first two commas. */
  ghost predicate ThreeFields(line: string, a: string, b: string, c: string)
  {
    line == a + "," + b + "," + c && Before(a) && Before(b)
  }

  lemma {:induction false} CommasJoin(a: string, rest: string)
    requires Before(a)
    ensures CommaCount(a + "," + rest) == 1 + CommaCount(rest)
  {
    var s := a + "," + rest;
    if a == [] {
      assert s[1..] == rest;
    } else {
      assert s[1..] == a[1..] + "," + rest && s[0] == a[0];
      CommasJoin(a[1..], rest);
    }
  }

  lemma TwoCommasSplit(line: string)
    requires CommaCount(line) >= 2
    ensures exists a, b, c :: ThreeFields(line, a, b, c)
  {
    var a, rest := FirstComma(line);
    var b, c := FirstComma(rest);
    JoinAssociates(a, b, c);
    assert ThreeFields(line, a, b, c);
  }

  lemma JoinAssociates(a: string, b: string, c: string)
    ensures a + "," + b + "," + c == a + "," + (b + "," + c)
  {
  }

  lemma ThreeFieldsCount(a: string, b: string, c: string)
    requires Before(a) && Before(b)
    ensures CommaCount(a + "," + b + "," + c) >= 2
  {
    JoinAssociates(a, b, c);
    CommasJoin(a, b + "," + c);
    CommasJoin(b, c);
  }

  lemma ThreeFieldsParse(line: string, a: string, b: string, c: string)
    requires |line| < U32 && ThreeFields(line, a, b, c)
    ensures CommaCount(line) >= 2 && Cut(line) == Entry(a, b, c)
  {
    LineWithTwoCommas(a, b, c);
    ThreeFieldsCount(a, b, c);
  }

  lemma FewCommasParse(line: string)
    requires |line| < U32 && CommaCount(line) < 2
    ensures Cut(line).password == line
    ensures CommaCount(line) == 0 ==> Cut(line) == Entry(line, line, line)
  {
    if CommaCount(line) == 0 {
      LineWithoutComma(line);
    } else {
      var a, rest := FirstComma(line);
      LineWithOneComma(a, rest);
    }
  }

  /** For every line: with at least two commas before any NUL, and only then, it has three parts,
      and they are what is kept; with one the password, and without one all fields, are the line. */
  lemma EveryLineParses(line: string)
    requires |line| < U32
    ensures CommaCount(line) >= 2 <==> exists a, b, c :: ThreeFields(line, a, b, c)
    ensures forall a, b, c :: ThreeFields(line, a, b, c) ==> Cut(line) == Entry(a, b, c)
    ensures CommaCount(line) < 2 ==> Cut(line).password == line
    ensures CommaCount(line) == 0 ==> Cut(line) == Entry(line, line, line)
  {
    if CommaCount(line) >= 2 {
      TwoCommasSplit(line);
    } else {
      FewCommasParse(line);
    }
    forall a, b, c | ThreeFields(line, a, b, c)
      ensures CommaCount(line) >= 2 && Cut(line) == Entry(a, b, c)
    {
      ThreeFieldsParse(line, a, b, c);
    }
  }
}
