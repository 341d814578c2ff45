/** The text the table is written as: fields joined with a separator
    (`Array.prototype.join`) and whole numbers in decimal, as JavaScript's
    `String(n)` prints them. `Split` and the `Parse` functions are their
    inverses, used to state that the written text can be read back. */
module Text {

  /** The parts separated by `sep`; no separator before the first part or
      after the last. */
  function Join(parts: seq<string>, sep: char): string
  {
    if |parts| == 0 then ""
    else if |parts| == 1 then parts[0]
    else Join(parts[..|parts| - 1], sep) + [sep] + parts[|parts| - 1]
  }

  /** The position of the last occurrence of `c` in `s`. */
  function LastIndex(s: string, c: char): (i: nat)
    requires c in s
    ensures i < |s| && s[i] == c && c !in s[i + 1..]
  {
    if s[|s| - 1] == c then |s| - 1
    else
      assert s == s[..|s| - 1] + [s[|s| - 1]];
      var i := LastIndex(s[..|s| - 1], c);
      assert s[i + 1..] == s[..|s| - 1][i + 1..] + [s[|s| - 1]];
      i
  }

  lemma LastIndexUnique(s: string, c: char, i: nat)
    requires i < |s| && s[i] == c && c !in s[i + 1..]
    ensures LastIndex(s, c) == i
  {
    var k := LastIndex(s, c);
    assert forall j :: i < j < |s| ==> s[i + 1..][j - i - 1] == s[j];
    assert forall j :: k < j < |s| ==> s[k + 1..][j - k - 1] == s[j];
  }

  /** The pieces of `s` between the occurrences of `sep`. */
  function Split(s: string, sep: char): (r: seq<string>)
    ensures |r| > 0
    ensures forall k :: 0 <= k < |r| ==> sep !in r[k]
    decreases |s|
  {
    if sep !in s then [s]
    else
      var i := LastIndex(s, sep);
      Split(s[..i], sep) + [s[i + 1..]]
  }

  /** A separator that occurs in none of the parts is never lost or
      invented: splitting the joined text gives the parts back. */
  lemma {:induction false} SplitJoin(parts: seq<string>, sep: char)
    requires |parts| > 0
    requires forall k :: 0 <= k < |parts| ==> sep !in parts[k]
    ensures Split(Join(parts, sep), sep) == parts
  {
    if |parts| > 1 {
      var init := parts[..|parts| - 1];
      var last := parts[|parts| - 1];
      var head := Join(init, sep);
      var s := head + [sep] + last;
      assert s[|head|] == sep;
      assert s[|head| + 1..] == last;
      assert s[..|head|] == head;
      LastIndexUnique(s, sep, |head|);
      SplitJoin(init, sep);
      assert init + [last] == parts;
    }
  }

  /** A character that is not the separator and occurs in no part does not
      occur in the joined text. */
  lemma {:induction false} JoinAvoids(parts: seq<string>, sep: char, c: char)
    requires c != sep
    requires forall k :: 0 <= k < |parts| ==> c !in parts[k]
    ensures c !in Join(parts, sep)
  {
    if |parts| > 1 {
      JoinAvoids(parts[..|parts| - 1], sep, c);
    }
  }

  predicate IsDigit(c: char)
  {
    '0' as int <= c as int <= '9' as int
  }

  function DigitChar(d: nat): (c: char)
    requires d < 10
    ensures IsDigit(c) && c as int - '0' as int == d
  {
    ('0' as int + d) as char
  }

  /** `n` in decimal, without leading zeros. */
  function NatText(n: nat): (r: string)
    ensures |r| > 0
    ensures forall k :: 0 <= k < |r| ==> IsDigit(r[k])
    ensures r[0] == '0' ==> n == 0
  {
    if n < 10 then [DigitChar(n)]
    else NatText(n / 10) + [DigitChar(n % 10)]
  }

  /** `i` in decimal, with a leading '-' when negative. */
  function IntText(i: int): (r: string)
    ensures |r| > 0
    ensures forall k :: 0 <= k < |r| ==> IsDigit(r[k]) || (k == 0 && r[k] == '-')
  {
    if i < 0 then "-" + NatText(-i) else NatText(i)
  }

  /** The value of a string of decimal digits. */
  function ParseNat(s: string): nat
    requires forall k :: 0 <= k < |s| ==> IsDigit(s[k])
  {
    if s == [] then 0
    else
      assert IsDigit(s[|s| - 1]);
      ParseNat(s[..|s| - 1]) * 10 + (s[|s| - 1] as int - '0' as int)
  }

  /** The value of an optionally negative decimal numeral. */
  function ParseInt(s: string): int
    requires forall k :: 0 <= k < |s| ==> IsDigit(s[k]) || (k == 0 && s[k] == '-')
  {
    if |s| > 0 && s[0] == '-' then -(ParseNat(s[1..]) as int) else ParseNat(s)
  }

  lemma {:induction false} NatTextRoundTrip(n: nat)
    ensures ParseNat(NatText(n)) == n
  {
    if n >= 10 {
      NatTextRoundTrip(n / 10);
      var r := NatText(n);
      assert r[..|r| - 1] == NatText(n / 10);
    }
  }

  lemma IntTextRoundTrip(i: int)
    ensures ParseInt(IntText(i)) == i
  {
    var r := IntText(i);
    if i < 0 {
      assert r[1..] == NatText(-i);
      NatTextRoundTrip(-i);
    } else {
      NatTextRoundTrip(i);
    }
  }
}
