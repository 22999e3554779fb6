// The condensed status string of eta.c: a run-length encoding of the one character per job that
// the status line shows, printed as c(n) separated by commas.
module StatusString {
  import opened Wrappers

  // ----- decimal numbers, as %u prints them -----

  function Digit(d: nat): char
    requires d < 10
  {
    '0' + d as char
  }

  function Decimal(n: nat): (s: string)
    ensures |s| >= 1 && forall c :: c in s ==> '0' <= c <= '9'
  {
    if n < 10 then [Digit(n)] else Decimal(n / 10) + [Digit(n % 10)]
  }

  function Value(s: string): nat {
    if s == [] then 0
    else 10 * Value(s[..|s| - 1]) + (if '0' <= s[|s| - 1] <= '9' then (s[|s| - 1] - '0') as nat else 0)
  }

  lemma {:induction false} DecimalValue(n: nat)
    ensures Value(Decimal(n)) == n
  {
    if n >= 10 {
      DecimalValue(n / 10);
      assert Decimal(n)[..|Decimal(n)| - 1] == Decimal(n / 10);
    }
  }

  lemma {:induction false} DecimalShort(n: nat)
    requires n >= 1
    ensures |Decimal(n)| <= n
  {
    if n >= 10 {
      DecimalShort(n / 10);
    }
  }

  // ----- the encoding -----

  // How many characters at the front of s are the same.
  function RunLength(s: string): (n: nat)
    requires s != []
    ensures 1 <= n <= |s| && (forall i :: 0 <= i < n ==> s[i] == s[0]) && (n < |s| ==> s[n] != s[0])
  {
    RunFrom(s, 1)
  }

  function RunFrom(s: string, k: nat): (n: nat)
    requires 1 <= k <= |s| && forall i :: 0 <= i < k ==> s[i] == s[0]
    ensures k <= n <= |s| && (forall i :: 0 <= i < n ==> s[i] == s[0]) && (n < |s| ==> s[n] != s[0])
    decreases |s| - k
  {
    if k < |s| && s[k] == s[0] then RunFrom(s, k + 1) else k
  }

  lemma RunLengthIs(s: string, n: nat)
    requires 1 <= n <= |s| && (forall i :: 0 <= i < n ==> s[i] == s[0]) && (n < |s| ==> s[n] != s[0])
    ensures RunLength(s) == n
  {}

  // One run as printed.
  function Run(c: char, d: string): string {
    [c] + "(" + d + "),"
  }

  // The runs, each followed by a comma.
  function Runs(s: string): string {
    if s == [] then []
    else Run(s[0], Decimal(RunLength(s))) + Runs(s[RunLength(s)..])
  }

  // The last comma is cut off.
  function Condensed(s: string): string {
    var t := Runs(s);
    if t == [] then [] else t[..|t| - 1]
  }

  // A run of n takes at most 5n characters.
  lemma {:induction false} RunsShort(s: string)
    ensures |Runs(s)| <= 5 * |s| && (s != [] ==> Runs(s) != [] && Runs(s)[|Runs(s)| - 1] == ',')
    decreases |s|
  {
    if s != [] {
      var n := RunLength(s);
      DecimalShort(n);
      RunsShort(s[n..]);
    }
  }

  lemma CondensedShort(s: string)
    requires s != []
    ensures |Condensed(s)| <= 5 * |s| - 1
  {
    RunsShort(s);
  }

  // ----- reading it back -----

  function Repeat(c: char, n: nat): string {
    seq(n, _ => c)
  }

  function Digits(t: string, i: nat): (j: nat)
    requires i <= |t|
    ensures i <= j <= |t| && forall k :: i <= k < j ==> '0' <= t[k] <= '9'
    decreases |t| - i
  {
    if i < |t| && '0' <= t[i] <= '9' then Digits(t, i + 1) else i
  }

  // Each run is a character, an opening parenthesis, a number, a closing parenthesis and a comma.
  function DecodeRuns(t: string): Option<string>
    decreases |t|
  {
    if t == [] then Some([])
    else if |t| < 2 || t[1] != '(' then None
    else
      var j := Digits(t, 2);
      if j == 2 || j + 1 >= |t| || t[j] != ')' || t[j + 1] != ',' then None
      else match DecodeRuns(t[j + 2..])
           case None => None
           case Some(rest) => Some(Repeat(t[0], Value(t[2..j])) + rest)
  }

  function Decode(t: string): Option<string> {
    if t == [] then Some([]) else DecodeRuns(t + ",")
  }

  lemma {:induction false} DigitsOf(t: string, i: nat, d: string, j: nat)
    requires i + |d| < |t| && i <= j <= i + |d| && t[i..i + |d|] == d && !('0' <= t[i + |d|] <= '9')
    requires forall c :: c in d ==> '0' <= c <= '9'
    ensures Digits(t, j) == i + |d|
    decreases |t| - j
  {
    if j < i + |d| {
      assert t[j] == d[j - i] && d[j - i] in d;
      DigitsOf(t, i, d, j + 1);
    }
  }

  lemma RunParts(c: char, d: string, rest: string)
    ensures var t := Run(c, d) + rest;
            && |t| == |d| + |rest| + 4 && t[0] == c && t[1] == '(' && t[2..2 + |d|] == d
            && t[2 + |d|] == ')' && t[3 + |d|] == ',' && t[4 + |d|..] == rest
  {
  }

  lemma DecodeRun(c: char, d: string, rest: string)
    requires d != [] && forall x :: x in d ==> '0' <= x <= '9'
    requires DecodeRuns(rest).Some?
    ensures DecodeRuns(Run(c, d) + rest) == Some(Repeat(c, Value(d)) + DecodeRuns(rest).value)
  {
    var t := Run(c, d) + rest;
    RunParts(c, d, rest);
    DigitsOf(t, 2, d, 2);
  }

  lemma {:induction false} DecodeRunsOf(s: string)
    ensures DecodeRuns(Runs(s)) == Some(s)
    decreases |s|
  {
    if s != [] {
      var n := RunLength(s);
      DecimalValue(n);
      DecodeRunsOf(s[n..]);
      DecodeRun(s[0], Decimal(n), Runs(s[n..]));
      FrontRun(s, n);
    }
  }

  lemma FrontRun(s: string, n: nat)
    requires 1 <= n <= |s| && forall i :: 0 <= i < n ==> s[i] == s[0]
    ensures Repeat(s[0], n) + s[n..] == s
  {
    assert s == s[..n] + s[n..];
    assert s[..n] == Repeat(s[0], n);
  }

  // With the comma that was cut off, it is the runs again.
  lemma CommaBack(s: string)
    requires s != []
    ensures Condensed(s) != [] && Condensed(s) + "," == Runs(s)
  {
    RunsShort(s);
    var t := Runs(s);
    assert |t| > 1 by { assert |Run(s[0], Decimal(RunLength(s)))| > 1; }
    assert t[..|t| - 1] + [t[|t| - 1]] == t;
  }

  // LOSSLESS: the printed runs give back the status string, whatever its characters.
  lemma Lossless(s: string)
    ensures Decode(Condensed(s)) == Some(s)
  {
    if s != [] {
      CommaBack(s);
      DecodeRunsOf(s);
    }
  }

  // ----- the code -----

  // A C string in an array.
  ghost predicate CString(a: array<char>, s: string)
    reads a
  {
    |s| < a.Length && a[..|s|] == s && a[|s|] == '\0' && '\0' !in s
  }

  // sprintf of a string without format characters.
  method Sprintf(out: array<char>, at: nat, s: string)
    requires at + |s| < out.Length
    modifies out
    ensures out[..at + |s|] == old(out[..at]) + s && out[at + |s|] == '\0'
  {
    forall i | 0 <= i < |s| {
      out[at + i] := s[i];
    }
    out[at + |s|] := '\0';
  }

  // The inner loop: the end of the run at r, and its length.
  method ScanRun(rstr: array<char>, ghost s: string, r: nat) returns (r': nat, nr: nat)
    requires CString(rstr, s) && r < |s|
    ensures r' == r + nr && r' <= |s| && nr == RunLength(s[r..])
  {
    nr := 1;
    r' := r + 1;
    while rstr[r' - 1] == rstr[r']
      invariant r < r' <= |s| && nr == r' - r
      invariant forall i :: r <= i < r' ==> s[i] == s[r]
      decreases |s| - r'
    {
      r' := r' + 1;
      nr := nr + 1;
    }
    RunLengthIs(s[r..], nr);
  }

  // One run of nr characters c, printed at position w.
  method WriteRun(out: array<char>, w: nat, c: char, nr: nat) returns (w': nat)
    requires w + |Run(c, Decimal(nr))| < out.Length
    modifies out
    ensures w' == w + |Run(c, Decimal(nr))| && out[..w'] == old(out[..w]) + Run(c, Decimal(nr))
  {
    ghost var before := out[..w];
    var text := "(" + Decimal(nr) + "),";
    out[w] := c;
    assert out[..w + 1] == before + [c];
    Sprintf(out, w + 1, text);
    w' := w + 1 + |text|;
    assert Run(c, Decimal(nr)) == [c] + text;
    assert before + [c] + text == before + ([c] + text);
  }

  // The first of the runs that are left.
  lemma FirstRun(s: string, r: nat, nr: nat)
    requires r < |s| && nr == RunLength(s[r..])
    ensures r + nr <= |s| && Runs(s[r..]) == Run(s[r], Decimal(nr)) + Runs(s[r + nr..])
  {
    assert s[r..][nr..] == s[r + nr..];
  }

  // The outer loop's body: print the run at r at position w.
  method PrintRun(rstr: array<char>, ghost s: string, r: nat, out: array<char>, w: nat) returns (r': nat, w': nat)
    requires CString(rstr, s) && r < |s| && out != rstr
    requires w + |Runs(s[r..])| < out.Length
    modifies out
    ensures r < r' <= |s| && w' + |Runs(s[r'..])| == w + |Runs(s[r..])|
    ensures out[..w'] + Runs(s[r'..]) == old(out[..w]) + Runs(s[r..])
  {
    var nr;
    r', nr := ScanRun(rstr, s, r);
    FirstRun(s, r, nr);
    w' := WriteRun(out, w, rstr[r], nr);
    Regroup(old(out[..w]), Run(s[r], Decimal(nr)), Runs(s[r'..]));
  }

  lemma Regroup(a: string, b: string, c: string)
    ensures a + b + c == a + (b + c)
  {}

  // update_condensed_str, into a buffer of five characters for each of the string and one more.
  method UpdateCondensedStr(rstr: array<char>, ghost s: string, out: array<char>) returns (len: nat)
    requires CString(rstr, s) && out != rstr && out.Length >= 5 * |s| + 1
    modifies out
    ensures len == |Condensed(s)| && len < out.Length && out[..len] == Condensed(s) && out[len] == '\0'
  {
    RunsShort(s);
    var r: nat, w: nat := 0, 0;
    if rstr[r] != '\0' {
      assert s[0..] == s;
      while rstr[r] != '\0'
        invariant r <= |s| && w + |Runs(s[r..])| == |Runs(s)|
        invariant out[..w] + Runs(s[r..]) == Runs(s)
        decreases |s| - r
      {
        r, w := PrintRun(rstr, s, r, out, w);
      }
      assert s[r..] == [] && out[..w] == Runs(s);
      w := w - 1;
    }
    out[w] := '\0';
    len := w;
  }
}
