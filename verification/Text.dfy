/** Decimal text, and the order in which JavaScript compares strings. */
module Text {

  function Digit(d: int): char
    requires 0 <= d <= 9
  {
    '0' + d as char
  }

  predicate IsDigit(c: char) {
    '0' <= c <= '9'
  }

  predicate AllDigits(s: string) {
    forall i :: 0 <= i < |s| ==> IsDigit(s[i])
  }

  function NatText(n: nat): string {
    if n < 10 then [Digit(n)] else NatText(n / 10) + [Digit(n % 10)]
  }

  /** What `${n}` prints for an integer. */
  function IntText(n: int): string {
    if n < 0 then "-" + NatText(-n) else NatText(n)
  }

  /** What `String(n).padStart(2, "0")` prints. */
  function Pad2(n: nat): string {
    if n < 10 then "0" + NatText(n) else NatText(n)
  }

  function NatValue(s: string): nat
    requires AllDigits(s)
  {
    if s == "" then 0 else 10 * NatValue(s[..|s| - 1]) + (s[|s| - 1] - '0') as int
  }

  lemma {:induction false} NatValueOfText(n: nat)
    ensures AllDigits(NatText(n)) && NatValue(NatText(n)) == n && NatText(n) != ""
  {
    if n < 10 {
      assert NatText(n)[..0] == "";
    } else {
      NatValueOfText(n / 10);
      assert NatText(n)[..|NatText(n)| - 1] == NatText(n / 10);
    }
  }

  lemma NatTextLength(n: nat)
    ensures |NatText(n)| == 4 <==> 1000 <= n <= 9999
    ensures |NatText(n)| == 2 <==> 10 <= n <= 99
    ensures n < 10 ==> |NatText(n)| == 1
  {
    if n >= 10 {
      assert |NatText(n)| == |NatText(n / 10)| + 1;
      if n >= 100 {
        assert |NatText(n / 10)| == |NatText(n / 100)| + 1;
        if n >= 1000 {
          assert n / 10 / 10 / 10 == n / 1000;
          assert |NatText(n / 100)| == |NatText(n / 1000)| + 1;
          NatTextNonempty(n / 1000);
          if n >= 10000 {
            NatTextNonempty(n / 1000 / 10);
          }
        }
      }
    }
  }

  lemma NatTextNonempty(n: nat)
    ensures |NatText(n)| >= 1
  {
  }

  lemma IntTextInjective(a: int, b: int)
    requires IntText(a) == IntText(b)
    ensures a == b
  {
    var m, n := if a < 0 then -a else a, if b < 0 then -b else b;
    NatValueOfText(m);
    NatValueOfText(n);
    assert IsDigit(NatText(m)[0]) && IsDigit(NatText(n)[0]);
    if a < 0 && b < 0 {
      assert NatText(m) == IntText(a)[1..] == IntText(b)[1..] == NatText(n);
    }
  }

  lemma Pad2Value(n: nat)
    requires n <= 99
    ensures |Pad2(n)| == 2 && AllDigits(Pad2(n)) && NatValue(Pad2(n)) == n
  {
    NatValueOfText(n);
    NatTextLength(n);
    if n < 10 {
      assert Pad2(n)[..1] == "0" && "0"[..0] == "";
      assert NatValue("0") == 0;
    }
  }

  // ---- Lexicographic order

  predicate TextLess(a: string, b: string) {
    b != "" && (a == "" || a[0] < b[0] || (a[0] == b[0] && TextLess(a[1..], b[1..])))
  }

  lemma {:induction false} TextLessConcat(a: string, b: string, c: string, d: string)
    requires |a| == |b|
    ensures TextLess(a + c, b + d) <==> TextLess(a, b) || (a == b && TextLess(c, d))
  {
    if a == "" {
      assert a + c == c && b + d == d;
    } else {
      TextLessConcat(a[1..], b[1..], c, d);
      assert (a + c)[1..] == a[1..] + c && (b + d)[1..] == b[1..] + d;
      assert a == [a[0]] + a[1..] && b == [b[0]] + b[1..];
    }
  }

  /** Digit strings of one length compare as the numbers they denote. */
  lemma {:induction false} TextLessDigits(a: string, b: string)
    requires |a| == |b| && AllDigits(a) && AllDigits(b)
    ensures TextLess(a, b) <==> NatValue(a) < NatValue(b)
    ensures a == b <==> NatValue(a) == NatValue(b)
  {
    if a != "" {
      var n := |a| - 1;
      TextLessDigits(a[..n], b[..n]);
      assert a == a[..n] + [a[n]] && b == b[..n] + [b[n]];
      TextLessConcat(a[..n], b[..n], [a[n]], [b[n]]);
    }
  }
}
