/** Decimal numerals, as integer formatting prints them. */
module Decimal {

  predicate IsDigit(c: char) {
    '0' <= c <= '9'
  }

  predicate IsNumeral(s: string) {
    s != "" && forall i :: 0 <= i < |s| ==> IsDigit(s[i])
  }

  function Digit(n: nat): (c: char)
    requires n < 10
    ensures IsDigit(c)
  {
    '0' + n as char
  }

  function Print(n: nat): (s: string)
    ensures IsNumeral(s)
  {
    if n < 10 then [Digit(n)] else Print(n / 10) + [Digit(n % 10)]
  }

  function Read(s: string): nat
    requires forall i :: 0 <= i < |s| ==> IsDigit(s[i])
  {
    if s == "" then 0 else
      var last := s[|s| - 1];
      assert IsDigit(last);
      10 * Read(s[..|s| - 1]) + (last as int - '0' as int)
  }

  /** A printed number reads back as itself; so distinct numbers print differently. */
  lemma {:induction false} ReadPrint(n: nat)
    ensures Read(Print(n)) == n
  {
    if n < 10 {
      assert [Digit(n)][..0] == "";
    } else {
      ReadPrint(n / 10);
      var s := Print(n);
      assert s[..|s| - 1] == Print(n / 10);
    }
  }

  /** Three digits, with leading zeros. */
  function Pad3(n: nat): (s: string)
    requires n < 1000
    ensures |s| == 3 && IsNumeral(s)
  {
    [Digit(n / 100), Digit(n / 10 % 10), Digit(n % 10)]
  }

  lemma ReadSnoc(s: string, n: nat)
    requires n < 10 && forall i :: 0 <= i < |s| ==> IsDigit(s[i])
    ensures Read(s + [Digit(n)]) == 10 * Read(s) + n
  {
    assert (s + [Digit(n)])[..|s|] == s;
  }

  lemma ReadPad3(n: nat)
    requires n < 1000
    ensures Read(Pad3(n)) == n
  {
    ReadSnoc("", n / 100);
    ReadSnoc([Digit(n / 100)], n / 10 % 10);
    ReadSnoc([Digit(n / 100), Digit(n / 10 % 10)], n % 10);
    assert "" + [Digit(n / 100)] == [Digit(n / 100)];
    assert [Digit(n / 100)] + [Digit(n / 10 % 10)] == [Digit(n / 100), Digit(n / 10 % 10)];
    assert [Digit(n / 100), Digit(n / 10 % 10)] + [Digit(n % 10)] == Pad3(n);
  }

  lemma ReadSix(high: nat, low: nat)
    requires high < 1000 && low < 1000
    ensures IsNumeral(Pad3(high) + Pad3(low)) && Read(Pad3(high) + Pad3(low)) == 1000 * high + low
  {
    var front := Pad3(high);
    var (a, b, c) := (low / 100, low / 10 % 10, low % 10);
    ReadPad3(high);
    ReadSnoc(front, a);
    ReadSnoc(front + [Digit(a)], b);
    ReadSnoc(front + [Digit(a)] + [Digit(b)], c);
    assert front + Pad3(low) == front + [Digit(a)] + [Digit(b)] + [Digit(c)];
  }
}
