/** The fragment of Ruby's Array#join and Integer#to_s that the games use
    to build their messages. */
module Strings {

  /** Array#join: the parts in order with `sep` between neighbours. */
  function Join(parts: seq<string>, sep: string): (r: string)
    ensures |parts| == 0 ==> r == ""
    ensures |parts| == 1 ==> r == parts[0]
    ensures |parts| > 0 ==> |r| == TotalLength(parts) + (|parts| - 1) * |sep|
  {
    if |parts| == 0 then ""
    else if |parts| == 1 then parts[0]
    else Join(parts[..|parts| - 1], sep) + sep + parts[|parts| - 1]
  }

  /** Sum of the lengths of the parts. */
  function TotalLength(parts: seq<string>): nat
  {
    if |parts| == 0 then 0 else TotalLength(parts[..|parts| - 1]) + |parts[|parts| - 1]|
  }

  predicate IsDigit(c: char) { '0' <= c <= '9' }

  /** The characters of `s` that are decimal digits, in order. */
  function Digits(s: string): (r: string)
    ensures |r| <= |s|
    ensures forall i :: 0 <= i < |r| ==> IsDigit(r[i])
  {
    if |s| == 0 then ""
    else (if IsDigit(s[0]) then [s[0]] else "") + Digits(s[1..])
  }

  lemma DigitsAppend(a: string, b: string)
    ensures Digits(a + b) == Digits(a) + Digits(b)
  {
    if |a| == 0 {
      assert a + b == b;
    } else {
      assert (a + b)[1..] == a[1..] + b;
      DigitsAppend(a[1..], b);
    }
  }

  /** Concatenation of the parts without any separator. */
  function Concat(parts: seq<string>): string
  {
    if |parts| == 0 then "" else Concat(parts[..|parts| - 1]) + parts[|parts| - 1]
  }

  /** A separator without digits adds none between two strings. */
  lemma DigitsAroundSep(a: string, sep: string, b: string)
    requires Digits(sep) == ""
    ensures Digits(a + sep + b) == Digits(a) + Digits(b)
  {
    DigitsAppend(a + sep, b);
    DigitsAppend(a, sep);
  }

  /** When the separator holds no digit, the digits of a joined list are the
      digits of its parts, in order: the separators can be stripped again. */
  lemma {:induction false} DigitsOfJoin(parts: seq<string>, sep: string)
    requires Digits(sep) == ""
    ensures Digits(Join(parts, sep)) == Digits(Concat(parts))
  {
    if |parts| == 0 {
    } else if |parts| == 1 {
      assert Concat(parts) == Concat([]) + parts[0];
      assert Concat(parts) == parts[0];
    } else {
      var init := parts[..|parts| - 1];
      var last := parts[|parts| - 1];
      DigitsOfJoin(init, sep);
      DigitsAroundSep(Join(init, sep), sep, last);
      DigitsAppend(Concat(init), last);
    }
  }

  /** Integer#to_s for a one-digit number. */
  function DigitString(d: int): (r: string)
    requires 0 <= d <= 9
    ensures |r| == 1 && IsDigit(r[0])
  {
    [(48 + d) as char]
  }
}
