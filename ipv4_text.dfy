/**
 * IPv4 addresses and their dotted-decimal text (`Ipv4Addr::to_string`).
 * The address watcher compares addresses by this text, so the model proves
 * that distinct addresses never share a text.
 */
module Ipv4Text {
  import opened Common

  datatype Ipv4 = Ipv4(a: byte, b: byte, c: byte, d: byte)

  predicate IsDigit(ch: char) {
    '0' <= ch <= '9'
  }

  predicate AllDigits(s: string) {
    forall i :: 0 <= i < |s| ==> IsDigit(s[i])
  }

  function DigitChar(n: nat): (ch: char)
    requires n < 10
    ensures IsDigit(ch)
  {
    ('0' as int + n) as char
  }

  /** Decimal text of a natural number, without leading zeros. */
  function Decimal(n: nat): (s: string)
    ensures |s| > 0 && AllDigits(s)
  {
    if n < 10 then [DigitChar(n)] else Decimal(n / 10) + [DigitChar(n % 10)]
  }

  /** The number a string of decimal digits denotes. */
  function DecimalValue(s: string): nat
    requires AllDigits(s)
  {
    if |s| == 0 then 0
    else DecimalValue(s[..|s| - 1]) * 10 + (s[|s| - 1] as int - '0' as int)
  }

  lemma {:induction false} DecimalRoundTrip(n: nat)
    ensures DecimalValue(Decimal(n)) == n
  {
    if n >= 10 {
      var s := Decimal(n);
      assert s[..|s| - 1] == Decimal(n / 10);
      DecimalRoundTrip(n / 10);
    }
  }

  /** Dotted-decimal text of an address, e.g. "10.0.0.5". */
  function Dotted(ip: Ipv4): string {
    Decimal(ip.a) + ("." + (Decimal(ip.b) + ("." + (Decimal(ip.c) + ("." + Decimal(ip.d))))))
  }

  /** A string split at its first dot splits uniquely. */
  lemma SplitAtDot(u: string, v: string, u': string, v': string)
    requires AllDigits(u) && AllDigits(u')
    requires u + ("." + v) == u' + ("." + v')
    ensures u == u' && v == v'
  {
    var w := u + ("." + v);
    assert forall i :: 0 <= i < |u| ==> w[i] == u[i] && IsDigit(w[i]);
    assert forall i :: 0 <= i < |u'| ==> w[i] == u'[i] && IsDigit(w[i]);
    assert w[|u|] == '.' && w[|u'|] == '.';
    assert |u| == |u'|;
    assert u == w[..|u|] == u';
    assert v == w[|u| + 1..] == v';
  }

  lemma DecimalInjective(m: nat, n: nat)
    requires Decimal(m) == Decimal(n)
    ensures m == n
  {
    DecimalRoundTrip(m);
    DecimalRoundTrip(n);
  }

  /** Distinct addresses have distinct texts. */
  lemma DottedInjective(x: Ipv4, y: Ipv4)
    ensures Dotted(x) == Dotted(y) <==> x == y
  {
    if Dotted(x) == Dotted(y) {
      var ra := Decimal(x.b) + ("." + (Decimal(x.c) + ("." + Decimal(x.d))));
      var sa := Decimal(y.b) + ("." + (Decimal(y.c) + ("." + Decimal(y.d))));
      SplitAtDot(Decimal(x.a), ra, Decimal(y.a), sa);
      var rb := Decimal(x.c) + ("." + Decimal(x.d));
      var sb := Decimal(y.c) + ("." + Decimal(y.d));
      SplitAtDot(Decimal(x.b), rb, Decimal(y.b), sb);
      SplitAtDot(Decimal(x.c), Decimal(x.d), Decimal(y.c), Decimal(y.d));
      DecimalInjective(x.a, y.a);
      DecimalInjective(x.b, y.b);
      DecimalInjective(x.c, y.c);
      DecimalInjective(x.d, y.d);
    }
  }
}
