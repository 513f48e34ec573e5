/** The pieces of Go's `fmt` verbs the core uses (`%d` on an int, `%t` on a
    bool), and the prefix / substring relations its output is described with. */
module Text {

  predicate IsDigit(ch: char) {
    '0' <= ch <= '9'
  }

  function DigitChar(d: nat): (ch: char)
    requires d < 10
    ensures IsDigit(ch) && DigitValue(ch) == d
  {
    ('0' as int + d) as char
  }

  function DigitValue(ch: char): (d: nat)
    requires IsDigit(ch)
    ensures d < 10
  {
    ch as int - '0' as int
  }

  predicate AllDigits(s: string) {
    forall i :: 0 <= i < |s| ==> IsDigit(s[i])
  }

  /** Decimal digits of `n`, most significant first, no leading zeros. */
  function NatToString(n: nat): (s: string)
    ensures |s| >= 1 && AllDigits(s)
  {
    if n < 10 then [DigitChar(n)] else NatToString(n / 10) + [DigitChar(n % 10)]
  }

  /** Reads a string of decimal digits back as a number. */
  function ParseNat(s: string): nat
    requires AllDigits(s)
  {
    if s == [] then 0 else ParseNat(s[..|s| - 1]) * 10 + DigitValue(s[|s| - 1])
  }

  /** Printing a number in decimal loses nothing: it can be read back. */
  lemma {:induction false} ParseNatToString(n: nat)
    ensures ParseNat(NatToString(n)) == n
  {
    var s := NatToString(n);
    if n >= 10 {
      assert s[..|s| - 1] == NatToString(n / 10);
      ParseNatToString(n / 10);
    }
  }

  /** Go's `%d` on an `int`: a minus sign for negative values, then the digits. */
  function IntToString(i: int): (s: string)
    ensures |s| >= 1
    ensures s[0] == '-' <==> i < 0
  {
    if i < 0 then "-" + NatToString(-i) else NatToString(i)
  }

  /** Distinct numbers print differently. */
  lemma IntToStringInjective(a: int, b: int)
    requires IntToString(a) == IntToString(b)
    ensures a == b
  {
    var s := IntToString(a);
    if a < 0 {
      assert b < 0;
      assert s == "-" + NatToString(-a) == "-" + NatToString(-b);
      assert NatToString(-a) == s[1..] == NatToString(-b);
      ParseNatToString(-a);
      ParseNatToString(-b);
    } else {
      assert b >= 0;
      assert NatToString(a) == s == NatToString(b);
      ParseNatToString(a);
      ParseNatToString(b);
    }
  }

  /** Go's `%t` on a `bool`. */
  function BoolToString(b: bool): string {
    if b then "true" else "false"
  }

  lemma AppendAssoc(a: string, b: string, c: string)
    ensures a + b + c == a + (b + c)
  {
  }

  lemma ConcatAssoc<T>(a: seq<T>, b: seq<T>, c: seq<T>)
    ensures a + b + c == a + (b + c)
  {
  }

  /** What a `strings.Builder` holds after the writes `ps`, in order. */
  function Join(ps: seq<string>): string {
    if ps == [] then "" else Join(ps[..|ps| - 1]) + ps[|ps| - 1]
  }

  lemma JoinSnoc(ps: seq<string>, p: string)
    ensures Join(ps + [p]) == Join(ps) + p
  {
    assert (ps + [p])[..|ps|] == ps;
  }

  lemma JoinSingleton(p: string)
    ensures Join([p]) == p
  {
    assert [p][..0] == [];
  }

  lemma {:induction false} JoinConcat(a: seq<string>, b: seq<string>)
    ensures Join(a + b) == Join(a) + Join(b)
    decreases |b|
  {
    if b == [] {
      assert a + b == a;
    } else {
      var b', last := b[..|b| - 1], b[|b| - 1];
      assert a + b == (a + b') + [last];
      assert b == b' + [last];
      JoinConcat(a, b');
      JoinSnoc(a + b', last);
      JoinSnoc(b', last);
      AppendAssoc(Join(a), Join(b'), last);
    }
  }

  /** One `WriteString` on a `strings.Builder` holding `sb0`; the ghost
      `written` lists the writes so far. */
  method WriteString(sb0: string, ghost written0: seq<string>, piece: string)
    returns (sb: string, ghost written: seq<string>)
    requires sb0 == Join(written0)
    ensures written == written0 + [piece]
    ensures sb == Join(written)
  {
    sb := sb0 + piece;
    written := written0 + [piece];
    JoinSnoc(written0, piece);
  }

  predicate StartsWith(s: string, prefix: string) {
    |prefix| <= |s| && s[..|prefix|] == prefix
  }

  predicate EndsWith(s: string, suffix: string) {
    |suffix| <= |s| && s[|s| - |suffix|..] == suffix
  }

  /** `t` occurs somewhere inside `s`. */
  ghost predicate Contains(s: string, t: string) {
    exists i, j :: 0 <= i <= j <= |s| && s[i..j] == t
  }

  lemma ContainsEnd(x: string, t: string)
    ensures Contains(x + t, t)
  {
    assert (x + t)[|x|..|x| + |t|] == t;
  }

  lemma ContainsAppendRight(s: string, t: string, y: string)
    requires Contains(s, t)
    ensures Contains(s + y, t)
  {
    var i, j :| 0 <= i <= j <= |s| && s[i..j] == t;
    assert (s + y)[i..j] == s[i..j];
  }

  lemma ContainsAppendLeft(x: string, s: string, t: string)
    requires Contains(s, t)
    ensures Contains(x + s, t)
  {
    var i, j :| 0 <= i <= j <= |s| && s[i..j] == t;
    assert (x + s)[|x| + i..|x| + j] == s[i..j];
  }

  lemma ContainsTransitive(a: string, b: string, c: string)
    requires Contains(a, b) && Contains(b, c)
    ensures Contains(a, c)
  {
    var i, j :| 0 <= i <= j <= |a| && a[i..j] == b;
    var k, l :| 0 <= k <= l <= |b| && b[k..l] == c;
    var w := a[i + k..i + l];
    forall m | 0 <= m < |c| ensures w[m] == c[m] {
      calc {
        c[m];
        b[k + m];
        a[i + k + m];
      }
    }
    assert w == c;
  }
}
