/** The string operations the generator is built from: indentation, Python's
    `str.join`, `str.endswith` and `str(int)`, and a line splitter used to
    read generated text back as lines. */
module Text {

  /** `os.linesep`, fixed to the POSIX value. */
  const LineSep: string := "\n"

  /** One level of indentation: four spaces. */
  const Tab: string := "    "

  /** `TAB * level`. */
  function Indent(level: nat): (r: string)
    ensures |r| == 4 * level
    ensures forall i :: 0 <= i < |r| ==> r[i] == ' '
  {
    if level == 0 then "" else Tab + Indent(level - 1)
  }

  predicate StartsWith(s: string, p: string) {
    |p| <= |s| && s[..|p|] == p
  }

  /** `s.endswith(suffix)`. */
  predicate EndsWith(s: string, suffix: string) {
    |suffix| <= |s| && s[|s| - |suffix|..] == suffix
  }

  /** `sep.join(xs)`. */
  function Join(sep: string, xs: seq<string>): string {
    if |xs| == 0 then ""
    else if |xs| == 1 then xs[0]
    else xs[0] + sep + Join(sep, xs[1..])
  }

  /** `s.split("\n")`: the pieces between newlines, never an empty list. */
  function Lines(s: string): (r: seq<string>)
    ensures |r| >= 1
  {
    if s == [] then [""]
    else
      var rest := Lines(s[1..]);
      if s[0] == '\n' then [""] + rest
      else [[s[0]] + rest[0]] + rest[1..]
  }

  /** A piece of text that fits on one line. */
  predicate OneLine(s: string) {
    '\n' !in s
  }

  function DigitChar(d: nat): (c: char)
    requires d < 10
    ensures '0' <= c <= '9'
  {
    "0123456789"[d]
  }

  /** `str(n)` for a non-negative integer. */
  function Decimal(n: nat): (r: string)
    ensures |r| >= 1
    ensures forall i :: 0 <= i < |r| ==> '0' <= r[i] <= '9'
    ensures |r| > 1 ==> r[0] != '0'
  {
    if n < 10 then [DigitChar(n)] else Decimal(n / 10) + [DigitChar(n % 10)]
  }

  lemma DecimalOneLine(n: nat)
    ensures OneLine(Decimal(n))
  {
    var d := Decimal(n);
    assert forall i :: 0 <= i < |d| ==> d[i] != '\n';
  }

  /** Three one-line pieces joined by newlines read back as those pieces. */
  lemma LinesOfThree(a: string, b: string, c: string)
    requires OneLine(a) && OneLine(b) && OneLine(c)
    ensures Lines(a + LineSep + b + LineSep + c) == [a, b, c]
  {
    LinesOfOneLine(c);
    LinesAfterBreak(b, c);
    assert a + LineSep + b + LineSep + c == a + LineSep + (b + LineSep + c);
    LinesAfterBreak(a, b + LineSep + c);
  }

  /** The value of a string of decimal digits. */
  function DecimalValue(s: string): int
    decreases |s|
  {
    if s == [] then 0
    else 10 * DecimalValue(s[..|s| - 1]) + (s[|s| - 1] as int - '0' as int)
  }

  lemma {:induction false} DecimalRoundTrip(n: nat)
    ensures DecimalValue(Decimal(n)) == n
  {
    var r := Decimal(n);
    if n < 10 {
      assert r[..|r| - 1] == [];
    } else {
      assert r[..|r| - 1] == Decimal(n / 10);
      DecimalRoundTrip(n / 10);
    }
  }

  lemma IndentOneLine(level: nat)
    ensures OneLine(Indent(level))
  {
    var r := Indent(level);
    assert forall i :: 0 <= i < |r| ==> r[i] != '\n';
  }

  lemma {:induction false} JoinStartsWith(sep: string, x: string, xs: seq<string>)
    ensures StartsWith(Join(sep, [x] + xs), x)
  {
    if |xs| > 0 {
      var ys := [x] + xs;
      assert ys[1..] == xs;
      assert Join(sep, ys) == x + (sep + Join(sep, xs));
    }
  }

  lemma {:induction false} LinesOfOneLine(a: string)
    requires OneLine(a)
    ensures Lines(a) == [a]
  {
    if a != [] {
      assert '\n' !in a[1..];
      LinesOfOneLine(a[1..]);
      assert [a[0]] + a[1..] == a;
    }
  }

  lemma {:induction false} LinesAfterBreak(a: string, b: string)
    requires OneLine(a)
    ensures Lines(a + LineSep + b) == [a] + Lines(b)
  {
    if a == [] {
      assert a + LineSep + b == ['\n'] + b;
      assert (['\n'] + b)[1..] == b;
    } else {
      var s := a + LineSep + b;
      assert s[1..] == a[1..] + LineSep + b;
      assert '\n' !in a[1..];
      LinesAfterBreak(a[1..], b);
      assert [a[0]] + a[1..] == a;
    }
  }

  /** Reading joined lines back line by line gives the lines again. */
  lemma {:induction false} LinesOfJoin(xs: seq<string>)
    requires |xs| >= 1
    requires forall i :: 0 <= i < |xs| ==> OneLine(xs[i])
    ensures Lines(Join(LineSep, xs)) == xs
  {
    if |xs| == 1 {
      LinesOfOneLine(xs[0]);
    } else {
      LinesOfJoin(xs[1..]);
      LinesAfterBreak(xs[0], Join(LineSep, xs[1..]));
      assert [xs[0]] + xs[1..] == xs;
    }
  }
}
