/** service/config/config-util.c and scripts/pf-getConfig: a configuration file is its JSON
    text followed by a line with the second it was saved at, and of the two files the one
    with the later second counts. */
module ConfigFiles {
  import opened Options

  const MARKER := "LastTime:"

  // ---- Decimal numerals ----

  predicate IsDigit(c: char)
  {
    '0' <= c <= '9'
  }

  predicate Digits(s: string)
  {
    forall i :: 0 <= i < |s| ==> IsDigit(s[i])
  }

  function Value(s: string): nat
    requires Digits(s)
  {
    if s == "" then 0 else 10 * Value(s[..|s| - 1]) + (s[|s| - 1] as int - '0' as int)
  }

  function Decimal(t: nat): (s: string)
    ensures s != "" && Digits(s)
  {
    var last := [(t % 10 + '0' as int) as char];
    if t < 10 then last else Decimal(t / 10) + last
  }

  lemma {:induction false} ValueOfDecimal(t: nat)
    ensures Value(Decimal(t)) == t
  {
    if t >= 10 {
      ValueOfDecimal(t / 10);
      assert Decimal(t)[..|Decimal(t)| - 1] == Decimal(t / 10);
    }
  }

  /** The leading digits of a second, however few, are a number from 1 to that second. */
  lemma {:induction false} ValueOfPrefix(t: nat, p: string)
    requires t > 0 && p != "" && p <= Decimal(t)
    ensures Digits(p) && 1 <= Value(p) <= t
  {
    if p == Decimal(t) {
      ValueOfDecimal(t);
    } else if t >= 10 {
      assert p <= Decimal(t / 10);
      ValueOfPrefix(t / 10, p);
    }
  }

  // ---- grep "LastTime:" | awk -F ":" '{ print $2 }' ----

  predicate HasAt(s: string, m: string, i: nat)
  {
    i + |m| <= |s| && s[i..i + |m|] == m
  }

  predicate Contains(s: string, m: string)
  {
    exists i :: 0 <= i <= |s| && HasAt(s, m, i)
  }

  function Lines(s: string): (r: seq<string>)
    ensures r != []
  {
    if s == "" then [""]
    else
      var r := Lines(s[1..]);
      if s[0] == '\n' then [""] + r else [[s[0]] + r[0]] + r[1..]
  }

  function UpTo(s: string, c: char): string
  {
    if s == "" || s[0] == c then "" else [s[0]] + UpTo(s[1..], c)
  }

  /** What follows the first `c`, or nothing. */
  function After(s: string, c: char): string
  {
    if s == "" then "" else if s[0] == c then s[1..] else After(s[1..], c)
  }

  function MatchOf(line: string): seq<string>
  {
    if Contains(line, MARKER) then [UpTo(After(line, ':'), ':')] else []
  }

  /** The second field of each line that has the marker. */
  function Matches(lines: seq<string>): seq<string>
  {
    if lines == [] then [] else MatchOf(lines[0]) + Matches(lines[1..])
  }

  function Printed(fields: seq<string>): string
  {
    if fields == [] then "" else fields[0] + "\n" + Printed(fields[1..])
  }

  /** Command substitution drops trailing newlines. */
  function Trim(s: string): string
  {
    if s != "" && s[|s| - 1] == '\n' then Trim(s[..|s| - 1]) else s
  }

  // What the shell's `[` takes for an integer

  predicate IsBlank(c: char)
  {
    c == ' ' || '\t' <= c <= '\r'
  }

  predicate AllBlank(s: string)
  {
    forall i :: 0 <= i < |s| ==> IsBlank(s[i])
  }

  function SkipBlanks(s: string): string
  {
    if s != "" && IsBlank(s[0]) then SkipBlanks(s[1..]) else s
  }

  function DropBlanks(s: string): string
  {
    if s != "" && IsBlank(s[|s| - 1]) then DropBlanks(s[..|s| - 1]) else s
  }

  function Unsigned(s: string): string
  {
    if s != "" && (s[0] == '+' || s[0] == '-') then s[1..] else s
  }

  /** Digits, with a sign before them or not, between blanks. */
  function Number(text: string): Option<int>
  {
    var s := SkipBlanks(DropBlanks(text));
    var d := Unsigned(s);
    if d == "" || !Digits(d) then None else Some(if s[0] == '-' then 0 - Value(d) else Value(d))
  }

  /** The stamp the script reads in a file: 0 when it finds none, nothing that compares when
      it is not a number. */
  function Stamp(content: string): Option<int>
  {
    var text := Trim(Printed(Matches(Lines(content))));
    if text == "" then Some(0) else Number(text)
  }

  function StampOf(file: Option<string>): Option<int>
  {
    if file.Some? then Stamp(file.value) else Some(0)
  }

  // ---- The script's choice ----

  /** `.json` itself, or the file with suffix 0 or 1. */
  datatype Choice = Plain | Numbered(i: nat)

  /** Comparing what is not a number fails the test. */
  predicate IsZero(t: Option<int>) { t == Some(0) }

  predicate NotZero(t: Option<int>) { t.Some? && t.value != 0 }

  function Select(t0: Option<int>, t1: Option<int>): Choice
  {
    if IsZero(t0) && IsZero(t1) then Plain
    else if NotZero(t0) && NotZero(t1) then
      if t0.value >= t1.value then Numbered(0) else Numbered(1)
    else if IsZero(t0) then Numbered(1)
    else if IsZero(t1) then Numbered(0)
    else Plain
  }

  /** Of two stamped files the one written last is chosen exactly when its second is later,
      or the seconds agree and its suffix is 0. */
  lemma NewestChosenIff(older: nat, newer: nat, target: nat)
    requires older > 0 && newer > 0 && target < 2
    ensures (if target == 0 then Select(Some(newer), Some(older)) else Select(Some(older), Some(newer))) == Numbered(target)
            <==> older < newer || (older == newer && target == 0)
  {
  }

  /** The clock set back between two saves: the file written first is chosen. */
  lemma OlderChosen()
    ensures Select(Some(6), Some(5)) == Numbered(0) && Select(Some(5), Some(6)) == Numbered(1)
  {
  }

  // ---- What a save writes ----

  function Full(body: string, t: nat): string
  {
    body + "\n" + MARKER + Decimal(t)
  }

  /** `content` is a save of `body`, with some of its stamp; `v` is what that reads as. */
  ghost predicate Stamped(content: string, body: string, v: nat)
  {
    exists p :: p != "" && Digits(p) && Value(p) == v && content == body + "\n" + MARKER + p
  }

  lemma {:induction false} LinesAppend(a: string, b: string)
    ensures Lines(a + "\n" + b) == Lines(a) + Lines(b)
  {
    var w := a + "\n" + b;
    if a == "" {
      assert w[1..] == b;
    } else {
      LinesAppend(a[1..], b);
      assert w[0] == a[0] && w[1..] == a[1..] + "\n" + b;
      ConsLine(a[0], Lines(a[1..]), Lines(b));
    }
  }

  lemma {:induction false} ConsLine(c: char, r: seq<string>, q: seq<string>)
    requires r != []
    ensures [[c] + (r + q)[0]] + (r + q)[1..] == ([[c] + r[0]] + r[1..]) + q
    ensures [""] + (r + q) == ([""] + r) + q
  {
  }

  lemma {:induction false} LinesOfOne(s: string)
    requires '\n' !in s
    ensures Lines(s) == [s]
  {
    if s != "" {
      assert s[0] in s && '\n' !in s[1..];
      LinesOfOne(s[1..]);
      assert [s[0]] + s[1..] == s;
    }
  }

  lemma TailSlice(s: string, i: nat, j: nat)
    requires i <= j < |s|
    ensures s[1..][i..j] == s[i + 1..j + 1]
  {
  }

  lemma {:induction false} NoMarkerNoMatch(s: string)
    requires !Contains(s, MARKER)
    ensures Matches(Lines(s)) == [] && Lines(s)[0] <= s
  {
    if s != "" {
      forall i | 0 <= i <= |s[1..]|
        ensures !HasAt(s[1..], MARKER, i)
      {
        assert !HasAt(s, MARKER, i + 1);
        if i + 1 + |MARKER| <= |s| {
          TailSlice(s, i, i + |MARKER|);
        }
      }
      NoMarkerNoMatch(s[1..]);
    }
    var l := Lines(s)[0];
    assert l <= s;
    forall i | 0 <= i <= |l|
      ensures !HasAt(l, MARKER, i)
    {
      assert !HasAt(s, MARKER, i);
      assert i + |MARKER| <= |l| ==> l[i..i + |MARKER|] == s[i..i + |MARKER|];
    }
    assert Matches(Lines(s)) == Matches(Lines(s)[1..]);
  }

  lemma Associate(a: seq<string>, b: seq<string>, c: seq<string>)
    ensures (a + b) + c == a + (b + c)
  {
  }

  lemma {:induction false} MatchesAppend(x: seq<string>, y: seq<string>)
    ensures Matches(x + y) == Matches(x) + Matches(y)
  {
    hide MatchOf;
    if x == [] {
      assert x + y == y;
    } else {
      MatchesAppend(x[1..], y);
      assert (x + y)[0] == x[0] && (x + y)[1..] == x[1..] + y;
      Associate(MatchOf(x[0]), Matches(x[1..]), Matches(y));
    }
  }

  lemma {:induction false} AfterFirst(pre: string, c: char, rest: string)
    requires c !in pre
    ensures After(pre + [c] + rest, c) == rest
  {
    var s := pre + [c] + rest;
    if pre == "" {
      assert s[1..] == rest;
    } else {
      assert s[0] == pre[0] && pre[0] in pre && s[1..] == pre[1..] + [c] + rest;
      AfterFirst(pre[1..], c, rest);
    }
  }

  lemma {:induction false} UpToNone(s: string, c: char)
    requires c !in s
    ensures UpTo(s, c) == s
  {
    if s != "" {
      assert s[0] in s;
      UpToNone(s[1..], c);
    }
  }

  /** The last line, cut short anywhere. */
  lemma {:induction false} MatchLastLine(d: string, q: string)
    requires Digits(d) && q <= MARKER + d
    ensures Matches([q]) == if |q| < |MARKER| then [] else [q[|MARKER|..]]
  {
    if |q| >= |MARKER| {
      var e := q[|MARKER|..];
      assert q == MARKER + e && e <= d;
      assert HasAt(q, MARKER, 0);
      assert MARKER == "LastTime" + [':'];
      assert "LastTime" + [':'] + e == q;
      AfterFirst("LastTime", ':', e);
      UpToNone(e, ':');
    }
  }

  lemma {:induction false} StampOfNone(lines: seq<string>, content: string)
    requires Lines(content) == lines && Matches(lines) == []
    ensures Stamp(content) == Some(0)
  {
  }

  lemma {:induction false} NumberOfDigits(d: string)
    requires d != "" && Digits(d)
    ensures Number(d) == Some(Value(d))
  {
    assert IsDigit(d[0]) && IsDigit(d[|d| - 1]);
  }

  lemma {:induction false} StampOfLines(lines: seq<string>, content: string, d: string)
    requires Lines(content) == lines && Digits(d) && Matches(lines) == [d]
    ensures Stamp(content) == Some(Value(d))
  {
    hide Number;
    assert Printed([d]) == d + "\n" by {
      assert [d][1..] == [];
    }
    assert (d + "\n")[..|d|] == d;
    assert Trim(d) == d;
    assert Trim(d + "\n") == d;
    if d != "" {
      NumberOfDigits(d);
    }
  }

  /** How much of the text is in the first `n` bytes of its file. */
  function Written(body: string, n: nat): string
  {
    if n <= |body| then body[..n] else body
  }

  /** A save cut short at any byte, with no marker in what is written of its text, reads as
      unstamped until the first digit of its stamp is written, and from then on holds its
      whole text and a stamp no later than its second. */
  lemma {:induction false} StampOfPrefix(body: string, t: nat, n: nat)
    requires !Contains(Written(body, n), MARKER) && t > 0 && n <= |Full(body, t)|
    ensures n <= |body| + 1 + |MARKER| ==> Stamp(Full(body, t)[..n]) == Some(0)
    ensures n > |body| + 1 + |MARKER| ==>
              exists v :: 1 <= v <= t && Stamp(Full(body, t)[..n]) == Some(v) && Stamped(Full(body, t)[..n], body, v)
  {
    CutStamp(body, t, n);
  }

  /** A save cut past its text: the lines are those of the text and what there is of the stamp's. */
  lemma {:induction false} CutLines(body: string, t: nat, n: nat)
    requires !Contains(body, MARKER) && |body| < n <= |Full(body, t)|
    ensures var p, q := Full(body, t)[..n], Full(body, t)[|body| + 1..n];
            && p == body + "\n" + q && q <= MARKER + Decimal(t) && Lines(p) == Lines(body) + [q]
            && Matches(Lines(p)) == if |q| < |MARKER| then [] else [q[|MARKER|..]]
  {
    hide Lines, Matches, Contains;
    var f, p := Full(body, t), Full(body, t)[..n];
    var q := f[|body| + 1..n];
    assert f == body + "\n" + (MARKER + Decimal(t));
    assert q <= MARKER + Decimal(t) && p == body + "\n" + q;
    LinesAppend(body, q);
    assert '\n' !in MARKER + Decimal(t);
    assert forall c :: c in q ==> c in MARKER + Decimal(t);
    LinesOfOne(q);
    NoMarkerNoMatch(body);
    MatchesAppend(Lines(body), [q]);
    MatchLastLine(Decimal(t), q);
  }

  lemma {:induction false} CutStamp(body: string, t: nat, n: nat)
    requires !Contains(Written(body, n), MARKER) && t > 0 && n <= |Full(body, t)|
    ensures var k := |body| + 1 + |MARKER|;
            var f := Full(body, t);
            if n <= k then Stamp(f[..n]) == Some(0)
            else Digits(f[k..n]) && 1 <= Value(f[k..n]) <= t && Stamp(f[..n]) == Some(Value(f[k..n]))
                 && Stamped(f[..n], body, Value(f[k..n]))
  {
    hide Lines, Matches, Contains, Stamp;
    var f, p := Full(body, t), Full(body, t)[..n];
    var k := |body| + 1 + |MARKER|;
    if n <= |body| {
      assert p == body[..n];
      NoMarkerNoMatch(p);
      StampOfNone(Lines(p), p);
    } else {
      CutLines(body, t, n);
      if n < k {
        StampOfNone(Lines(p), p);
      } else {
        var e := f[|body| + 1..n][|MARKER|..];
        assert e == f[k..n] && e <= Decimal(t);
        StampOfLines(Lines(p), p, e);
        assert n == k ==> e == "" && Value(e) == 0;
        if n > k {
          ValueOfPrefix(t, e);
          assert p == body + "\n" + MARKER + e;
        }
      }
    }
  }

  // ---- A text that contains the marker ----

  lemma {:induction false} LineStarts(s: string, m: string)
    requires '\n' !in m && m <= s
    ensures m <= Lines(s)[0]
  {
    if m != "" {
      assert m[0] in m && s[0] == m[0] && m[1..] <= s[1..];
      LineStarts(s[1..], m[1..]);
      assert [m[0]] + m[1..] == m;
    }
  }

  lemma MarkerHasNoNewline()
    ensures '\n' !in MARKER
  {
  }

  lemma {:induction false} ContainsLonger(c: char, s: string)
    requires Contains(s, MARKER)
    ensures Contains([c] + s, MARKER)
  {
    var i :| 0 <= i <= |s| && HasAt(s, MARKER, i);
    var w := [c] + s;
    assert w[i + 1..i + 1 + |MARKER|] == s[i..i + |MARKER|];
    assert HasAt(w, MARKER, i + 1);
  }

  lemma {:induction false} ContainsLater(s: string)
    requires Contains(s, MARKER)
    ensures MARKER <= s || (s != "" && Contains(s[1..], MARKER))
  {
    var i :| 0 <= i <= |s| && HasAt(s, MARKER, i);
    if i == 0 {
      assert s[0..|MARKER|] == MARKER;
    } else {
      var tail := s[1..];
      assert tail[i - 1..i - 1 + |MARKER|] == s[i..i + |MARKER|];
      assert HasAt(tail, MARKER, i - 1);
    }
  }

  /** A text with the marker has a line with it. */
  lemma {:induction false} MarkerMatches(s: string)
    requires Contains(s, MARKER)
    ensures Matches(Lines(s)) != []
  {
    if MARKER <= s {
      MarkerHasNoNewline();
      LineStarts(s, MARKER);
      var l := Lines(s)[0];
      assert l[0..|MARKER|] == MARKER && HasAt(l, MARKER, 0);
      assert MatchOf(l) != [];
    } else {
      ContainsLater(s);
      MarkerMatches(s[1..]);
      var r, all := Lines(s[1..]), Lines(s);
      assert all[1..] == if s[0] == '\n' then r else r[1..];
      if s[0] != '\n' && Contains(r[0], MARKER) {
        ContainsLonger(s[0], r[0]);
      }
    }
  }

  lemma {:induction false} PrintedAppend(x: seq<string>, d: string)
    ensures Printed(x + [d]) == Printed(x) + d + "\n"
    ensures x != [] ==> Printed(x) != "" && Printed(x)[|Printed(x)| - 1] == '\n'
  {
    if x == [] {
      assert [d][1..] == [];
    } else {
      PrintedAppend(x[1..], d);
      assert (x + [d])[0] == x[0] && (x + [d])[1..] == x[1..] + [d];
    }
  }

  lemma {:induction false} SkipBefore(p: string, d: string)
    requires d != "" && !IsBlank(d[0])
    ensures SkipBlanks(p + d) == SkipBlanks(p) + d
    ensures SkipBlanks(p) == "" <==> AllBlank(p)
  {
    if p == "" {
      assert p + d == d;
    } else {
      assert (p + d)[1..] == p[1..] + d;
      SkipBefore(p[1..], d);
      assert AllBlank(p) <==> IsBlank(p[0]) && AllBlank(p[1..]) by {
        assert IsBlank(p[0]) && AllBlank(p[1..]) ==> forall i :: 0 < i < |p| ==> p[i] == p[1..][i - 1];
        assert forall i :: 0 <= i < |p[1..]| ==> p[1..][i] == p[i + 1];
      }
    }
  }

  lemma {:induction false} SkipEndsSame(p: string)
    requires p != "" && SkipBlanks(p) != ""
    ensures var q := SkipBlanks(p);
            |q| <= |p| && q[|q| - 1] == p[|p| - 1] && !IsBlank(q[0])
  {
    if IsBlank(p[0]) {
      SkipEndsSame(p[1..]);
    }
  }

  /** Digits on the last line are a number exactly when all before them is blank. */
  lemma {:induction false} NumberAfter(p: string, d: string)
    requires p != "" && p[|p| - 1] == '\n' && d != "" && Digits(d)
    ensures Number(p + d) == if AllBlank(p) then Some(Value(d)) else None
  {
    var text, q := p + d, SkipBlanks(p);
    assert IsDigit(d[0]) && IsDigit(d[|d| - 1]) && text[|text| - 1] == d[|d| - 1];
    assert DropBlanks(text) == text;
    SkipBefore(p, d);
    if q == "" {
      assert q + d == d;
    } else {
      SkipEndsSame(p);
      var u := Unsigned(q + d);
      var at := |q| - 1 - (|q + d| - |u|);
      assert (q + d)[|q| - 1] == '\n' && |q| > 1;
      assert u[at] == '\n' && !IsDigit(u[at]);
    }
  }

  lemma {:induction false} PrintedBlank(x: seq<string>)
    ensures AllBlank(Printed(x)) <==> forall k :: 0 <= k < |x| ==> AllBlank(x[k])
  {
    if x != [] {
      PrintedBlank(x[1..]);
      BlankJoin(x[0], Printed(x[1..]));
      assert forall k :: 0 < k < |x| ==> x[k] == x[1..][k - 1];
      assert forall k :: 0 <= k < |x[1..]| ==> x[1..][k] == x[k + 1];
    }
  }

  lemma {:induction false} BlankJoin(f: string, p: string)
    ensures AllBlank(f + "\n" + p) <==> AllBlank(f) && AllBlank(p)
  {
    var w := f + "\n" + p;
    assert forall i :: 0 <= i < |f| ==> f[i] == w[i];
    assert forall i :: 0 <= i < |p| ==> p[i] == w[|f| + 1 + i];
    assert forall i :: 0 <= i < |w| ==> w[i] == if i < |f| then f[i] else if i == |f| then '\n' else p[i - |f| - 1];
  }

  lemma {:induction false} StampAfterFields(content: string, x: seq<string>, d: string)
    requires Matches(Lines(content)) == x + [d] && x != [] && d != "" && Digits(d)
    ensures Stamp(content) == if AllBlank(Printed(x)) then Some(Value(d)) else None
  {
    hide Lines, Matches, Printed, Number, AllBlank;
    PrintedAppend(x, d);
    var text := Printed(x) + d;
    assert (text + "\n")[..|text|] == text && IsDigit(text[|text| - 1]);
    assert Trim(text) == text && Trim(text + "\n") == text;
    NumberAfter(Printed(x), d);
  }

  /** On every line with the marker, the field the script reads is blank. */
  ghost predicate BlankFields(body: string)
  {
    var x := Matches(Lines(body));
    forall k :: 0 <= k < |x| ==> AllBlank(x[k])
  }

  /** The stamp of a completed save reads as the second it was made exactly when no line of the
      text with the marker has a field to read, as when there is no such line; otherwise it
      reads as nothing that compares. */
  lemma {:induction false} StampIff(body: string, t: nat)
    ensures Stamp(Full(body, t)) == if BlankFields(body) then Some(t) else None
    ensures !Contains(body, MARKER) ==> BlankFields(body)
    ensures Stamped(Full(body, t), body, t)
  {
    hide Lines, Matches, Contains, Stamp;
    var d, f := Decimal(t), Full(body, t);
    ValueOfDecimal(t);
    assert f == body + "\n" + (MARKER + d) && f == body + "\n" + MARKER + d;
    LinesAppend(body, MARKER + d);
    MarkerHasNoNewline();
    LinesOfOne(MARKER + d);
    MatchesAppend(Lines(body), [MARKER + d]);
    MatchLastLine(d, MARKER + d);
    assert (MARKER + d)[|MARKER|..] == d;
    var x := Matches(Lines(body));
    if !Contains(body, MARKER) {
      NoMarkerNoMatch(body);
    }
    if x == [] {
      assert [] + [d] == [d];
      StampOfLines(Lines(f), f, d);
    } else {
      StampAfterFields(f, x, d);
      PrintedBlank(x);
    }
  }

  // ---- The texts that are saved ----

  /** The line has a quoted key, a colon, a tab, and then a string or an array. */
  ghost predicate HasKey(l: string)
  {
    exists k: nat :: KeyEnds(l, k)
  }

  predicate KeyEnds(l: string, k: nat)
  {
    && 0 < k && k + 2 < |l| && l[k - 1] == '"' && l[k] == ':' && l[k + 1] == '\t' && (l[k + 2] == '"' || l[k + 2] == '[')
    && forall i :: 0 <= i < k ==> l[i] != ':'
  }

  /** Wherever the text, as `cJSON_Print` formats it, has the marker, it is on the line of a key. */
  ghost predicate Shaped(body: string)
  {
    var ls := Lines(body);
    forall i :: 0 <= i < |ls| && Contains(ls[i], MARKER) ==> HasKey(ls[i])
  }

  /** What the script reads on such a line: the start of the value. */
  predicate Quoted(f: string)
  {
    |f| >= 2 && f[0] == '\t' && (f[1] == '"' || f[1] == '[')
  }

  lemma {:induction false} FieldOfKey(l: string, k: nat)
    requires KeyEnds(l, k)
    ensures Quoted(UpTo(After(l, ':'), ':'))
  {
    var rest := l[k + 1..];
    assert l == l[..k] + [':'] + rest && ':' !in l[..k];
    AfterFirst(l[..k], ':', rest);
    assert rest[0] == '\t' && rest[1] == l[k + 2] && rest[1..][0] == rest[1];
    assert UpTo(rest, ':') == [rest[0]] + UpTo(rest[1..], ':');
    assert UpTo(rest[1..], ':') == [rest[1]] + UpTo(rest[1..][1..], ':');
  }

  /** A line that goes on as the line of a key, and already has the marker, has the key. */
  lemma {:induction false} KeyBeforeMarker(l: string, whole: string)
    requires l <= whole && Contains(l, MARKER) && HasKey(whole)
    ensures HasKey(l)
  {
    var k: nat :| KeyEnds(whole, k);
    var i :| 0 <= i <= |l| && HasAt(l, MARKER, i);
    assert l[i..i + 9] == MARKER;
    assert l[i + 8] == l[i..i + 9][8] == ':' && l[i + 7] == l[i..i + 9][7] == 'e';
    assert forall j :: i <= j < i + 8 ==> l[j] == MARKER[j - i] != ':';
    assert k < i;
    assert KeyEnds(l, k);
  }

  /** The lines of a text cut short are those of the text, the last cut short. */
  lemma {:induction false} LinesOfCut(s: string, n: nat)
    requires n <= |s|
    ensures var p, ls := Lines(s[..n]), Lines(s);
            |p| <= |ls| && forall i :: 0 <= i < |p| ==> p[i] <= ls[i]
    decreases n
  {
    if n > 0 {
      LinesOfCut(s[1..], n - 1);
      assert s[..n][1..] == s[1..][..n - 1] && s[..n][0] == s[0];
      ConsCut(s[0], Lines(s[1..][..n - 1]), Lines(s[1..]));
    } else {
      assert s[..0] == "" && Lines(s[..0]) == [""];
    }
  }

  lemma ConsCut(c: char, p: seq<string>, ls: seq<string>)
    requires p != [] && |p| <= |ls| && forall i :: 0 <= i < |p| ==> p[i] <= ls[i]
    ensures var p', ls' := [""] + p, [""] + ls;
            forall i :: 0 <= i < |p'| ==> p'[i] <= ls'[i]
    ensures var p', ls' := [[c] + p[0]] + p[1..], [[c] + ls[0]] + ls[1..];
            forall i :: 0 <= i < |p'| ==> p'[i] <= ls'[i]
  {
  }

  lemma {:induction false} FirstMatch(ls: seq<string>)
    requires forall i :: 0 <= i < |ls| && Contains(ls[i], MARKER) ==> HasKey(ls[i])
    requires Matches(ls) != []
    ensures Quoted(Matches(ls)[0])
  {
    hide Contains, HasKey, UpTo, After;
    if Contains(ls[0], MARKER) {
      KeyedMatch(ls[0]);
    } else {
      assert forall i :: 0 <= i < |ls[1..]| ==> ls[1..][i] == ls[i + 1];
      FirstMatch(ls[1..]);
    }
  }

  lemma {:induction false} KeyedMatch(l: string)
    requires HasKey(l)
    ensures Quoted(UpTo(After(l, ':'), ':'))
  {
    var k: nat :| KeyEnds(l, k);
    FieldOfKey(l, k);
  }

  /** As soon as the marker of such a text is written, the first field read is no number. */
  lemma {:induction false} MarkedCut(body: string, n: nat)
    requires Shaped(body) && n <= |body| && Contains(body[..n], MARKER)
    ensures var x := Matches(Lines(body[..n]));
            x != [] && Quoted(x[0])
  {
    hide Contains, HasKey, Matches;
    var p, ls := Lines(body[..n]), Lines(body);
    MarkerMatches(body[..n]);
    LinesOfCut(body, n);
    forall i | 0 <= i < |p| && Contains(p[i], MARKER)
      ensures HasKey(p[i])
    {
      ContainsFurther(p[i], ls[i]);
      KeyBeforeMarker(p[i], ls[i]);
    }
    FirstMatch(p);
  }

  lemma {:induction false} ContainsFurther(p: string, s: string)
    requires p <= s && Contains(p, MARKER)
    ensures Contains(s, MARKER)
  {
    var i :| 0 <= i <= |p| && HasAt(p, MARKER, i);
    assert s[i..i + |MARKER|] == p[i..i + |MARKER|];
    assert HasAt(s, MARKER, i);
  }

  lemma {:induction false} TrimKeepsFront(s: string)
    requires Quoted(s)
    ensures Quoted(Trim(s))
  {
    if s[|s| - 1] == '\n' {
      TrimKeepsFront(s[..|s| - 1]);
    }
  }

  lemma {:induction false} DropKeepsFront(s: string)
    requires Quoted(s)
    ensures Quoted(DropBlanks(s))
  {
    if IsBlank(s[|s| - 1]) {
      DropKeepsFront(s[..|s| - 1]);
    }
  }

  lemma {:induction false} QuotedIsNoNumber(s: string)
    requires Quoted(s)
    ensures Number(s) == None
  {
    DropKeepsFront(s);
    var d := DropBlanks(s);
    assert SkipBlanks(d) == d[1..] by {
      assert SkipBlanks(d[1..]) == d[1..];
    }
    assert !IsDigit(d[1..][0]);
  }

  lemma {:induction false} QuotedFirstNoStamp(content: string)
    requires Matches(Lines(content)) != [] && Quoted(Matches(Lines(content))[0])
    ensures Stamp(content) == None
  {
    hide Lines, Matches, Number;
    var x := Matches(Lines(content));
    assert Quoted(Printed(x)) by {
      assert Printed(x) == x[0] + "\n" + Printed(x[1..]);
    }
    TrimKeepsFront(Printed(x));
    QuotedIsNoNumber(Trim(Printed(x)));
  }

  /** A save of such a text reads as nothing that compares from the marker on. */
  lemma {:induction false} MarkedCutStamp(body: string, t: nat, n: nat)
    requires Shaped(body) && n <= |Full(body, t)| && Contains(Written(body, n), MARKER)
    ensures Stamp(Full(body, t)[..n]) == None
  {
    hide Lines, Matches, Contains, Stamp;
    var f := Full(body, t);
    var p := f[..n];
    if n <= |body| {
      assert p == body[..n];
      MarkedCut(body, n);
    } else {
      var q := f[|body| + 1..n];
      assert p == body + "\n" + q && body[..|body|] == body;
      MarkedCut(body, |body|);
      LinesAppend(body, q);
      MatchesAppend(Lines(body), Lines(q));
    }
    QuotedFirstNoStamp(p);
  }

  lemma {:induction false} ShapedMarked(body: string)
    requires Shaped(body)
    ensures BlankFields(body) <==> !Contains(body, MARKER)
  {
    hide Lines, Matches, Contains, Shaped;
    if Contains(body, MARKER) {
      assert body[..|body|] == body;
      MarkedCut(body, |body|);
      var x := Matches(Lines(body));
      assert !IsBlank(x[0][1]);
      assert !AllBlank(x[0]);
    } else {
      NoMarkerNoMatch(body);
    }
  }

  // ---- A text with one setting ----

  const BEFORE := "{\n\t\"name\":\t\""

  /** A text with one setting, of this value. */
  function Setting(value: string): string
  {
    BEFORE + value + "\"\n}"
  }

  lemma ContainsWithin(a: string, m: string, b: string)
    requires Contains(m, MARKER)
    ensures Contains(a + m + b, MARKER)
  {
    var i :| 0 <= i <= |m| && HasAt(m, MARKER, i);
    var w := a + m + b;
    assert w[|a| + i..|a| + i + |MARKER|] == m[i..i + |MARKER|];
    assert HasAt(w, MARKER, |a| + i);
  }

  lemma {:induction false} SettingShaped(value: string)
    requires '\n' !in value && Contains(value, MARKER)
    ensures Shaped(Setting(value)) && Contains(Setting(value), MARKER)
  {
    hide Lines, Contains;
    var key := "\t\"name\":\t\"";
    var l := key + value + "\"";
    ContainsWithin(BEFORE, value, "\"\n}");
    assert Setting(value) == "{" + "\n" + (l + "\n" + "}");
    LinesAppend("{", l + "\n" + "}");
    LinesAppend(l, "}");
    LinesOfOne("{");
    LinesOfOne(l);
    LinesOfOne("}");
    assert forall i :: 0 <= i < |key| ==> l[i] == key[i];
    assert KeyEnds(l, 7);
    ShortContainsNot("{");
    ShortContainsNot("}");
    assert Lines(Setting(value)) == ["{", l, "}"];
  }

  lemma ShortContainsNot(s: string)
    requires |s| < |MARKER|
    ensures !Contains(s, MARKER)
  {
  }

  /** A setting with the marker, saved whole: whatever stamped file is beside it, the script
      chooses neither. */
  lemma {:induction false} MarkedSaveLost(value: string, t: nat, v: int)
    requires '\n' !in value && Contains(value, MARKER) && v != 0
    ensures Stamp(Full(Setting(value), t)) == None
    ensures Select(Some(v), Stamp(Full(Setting(value), t))) == Plain
    ensures Select(Stamp(Full(Setting(value), t)), Some(v)) == Plain
  {
    SettingShaped(value);
    ShapedMarked(Setting(value));
    StampIff(Setting(value), t);
  }

  /** The same, cut short anywhere after the marker. */
  lemma {:induction false} MarkedCutLost(t: nat, n: nat, v: int)
    requires |BEFORE| + |MARKER| <= n <= |Full(Setting("LastTime:9"), t)| && v != 0
    ensures Stamp(Full(Setting("LastTime:9"), t)[..n]) == None
    ensures Select(Some(v), Stamp(Full(Setting("LastTime:9"), t)[..n])) == Plain
    ensures Select(Stamp(Full(Setting("LastTime:9"), t)[..n]), Some(v)) == Plain
  {
    hide Lines, Matches, Contains, Stamp, Shaped;
    var value := "LastTime:9";
    var body := Setting(value);
    assert HasAt(value, MARKER, 0) && '\n' !in value;
    assert Contains(value, MARKER) by { MarkerWithin(value, 0); }
    SettingShaped(value);
    var w := Written(body, n);
    assert w[|BEFORE|..|BEFORE| + |MARKER|] == MARKER;
    MarkerWithin(w, |BEFORE|);
    MarkedCutStamp(body, t, n);
  }

  lemma MarkerWithin(s: string, i: nat)
    requires HasAt(s, MARKER, i)
    ensures Contains(s, MARKER)
  {
  }

  // ---- The text of a file ----

  /** What stands before the last line. */
  function TextOf(content: string): string
  {
    if content == "" then "" else
      var front := content[..|content| - 1];
      if content[|content| - 1] == '\n' then front else TextOf(front)
  }

  lemma {:induction false} TextBeforeLine(body: string, q: string)
    requires '\n' !in q
    ensures TextOf(body + "\n" + q) == body
    decreases |q|
  {
    var c := body + "\n" + q;
    if q == "" {
      assert c[..|c| - 1] == body;
    } else {
      assert q[|q| - 1] in q;
      assert c[..|c| - 1] == body + "\n" + q[..|q| - 1];
      TextBeforeLine(body, q[..|q| - 1]);
    }
  }

  lemma {:induction false} TextOfStamped(content: string, body: string, v: nat)
    requires Stamped(content, body, v)
    ensures TextOf(content) == body
  {
    var p :| p != "" && Digits(p) && Value(p) == v && content == body + "\n" + MARKER + p;
    MarkerHasNoNewline();
    assert content == body + "\n" + (MARKER + p);
    TextBeforeLine(body, MARKER + p);
  }

  /** A text is determined by its file: the stamp line is the last. */
  lemma {:induction false} StampedUnique(content: string, a: string, v: nat, b: string, w: nat)
    requires Stamped(content, a, v) && Stamped(content, b, w)
    ensures a == b && v == w
  {
    TextOfStamped(content, a, v);
    TextOfStamped(content, b, w);
    var p :| p != "" && Digits(p) && Value(p) == v && content == a + "\n" + MARKER + p;
    var q :| q != "" && Digits(q) && Value(q) == w && content == a + "\n" + MARKER + q;
    var k := |a| + 1 + |MARKER|;
    assert content[k..] == p && content[k..] == q;
  }
}
