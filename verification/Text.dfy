/** Text as the program treats it: bytes, ASCII letter case and white space, and byte-wise order. */
module Text {

  function LowerChar(c: char): char {
    if 'A' <= c <= 'Z' then c - 'A' + 'a' else c
  }

  function ToLower(s: string): (r: string)
    ensures |r| == |s| && forall i :: 0 <= i < |s| ==> r[i] == LowerChar(s[i])
  {
    seq(|s|, i requires 0 <= i < |s| => LowerChar(s[i]))
  }

  function UpperChar(c: char): char {
    if 'a' <= c <= 'z' then c - 'a' + 'A' else c
  }

  function ToUpper(s: string): (r: string)
    ensures |r| == |s| && forall i :: 0 <= i < |s| ==> r[i] == UpperChar(s[i])
  {
    seq(|s|, i requires 0 <= i < |s| => UpperChar(s[i]))
  }

  const CAPITALS: set<char> := {
    'A', 'B', 'C', 'D', 'E', 'F', 'G', 'H', 'I', 'J', 'K', 'L', 'M',
    'N', 'O', 'P', 'Q', 'R', 'S', 'T', 'U', 'V', 'W', 'X', 'Y', 'Z'}
  const SMALL: set<char> := {
    'a', 'b', 'c', 'd', 'e', 'f', 'g', 'h', 'i', 'j', 'k', 'l', 'm',
    'n', 'o', 'p', 'q', 'r', 's', 't', 'u', 'v', 'w', 'x', 'y', 'z'}

  /** The 26 letters change case, and nothing else does. */
  lemma CaseInFull(c: char)
    ensures LowerChar(c) as int == if c in CAPITALS then c as int + 32 else c as int
    ensures UpperChar(c) as int == if c in SMALL then c as int - 32 else c as int
  {
  }

  /** Tabs, line ends, form feeds, carriage returns and blanks. */
  lemma SpaceInFull(c: char)
    ensures IsSpace(c) <==> c as int in {9, 10, 11, 12, 13, 32}
  {
  }

  predicate IsSpace(c: char) { c == ' ' || '\t' <= c <= '\r' }

  /** The text without leading and trailing white space. */
  function TrimSpace(s: string): string {
    if s != "" && IsSpace(s[0]) then TrimSpace(s[1..])
    else if s != "" && IsSpace(s[|s| - 1]) then TrimSpace(s[..|s| - 1])
    else s
  }

  predicate AllSpace(s: string) { forall i :: 0 <= i < |s| ==> IsSpace(s[i]) }

  /** Only white space is cut off, on both sides, and all of it. */
  lemma {:induction false} TrimExactly(s: string) returns (left: string, right: string)
    ensures s == left + TrimSpace(s) + right && AllSpace(left) && AllSpace(right)
    ensures TrimSpace(s) != "" ==> !IsSpace(TrimSpace(s)[0]) && !IsSpace(TrimSpace(s)[|TrimSpace(s)| - 1])
    decreases |s|
  {
    if s != "" && IsSpace(s[0]) {
      left, right := TrimExactly(s[1..]);
      left := [s[0]] + left;
    } else if s != "" && IsSpace(s[|s| - 1]) {
      left, right := TrimExactly(s[..|s| - 1]);
      right := right + [s[|s| - 1]];
    } else {
      left, right := "", "";
    }
  }

  lemma {:induction false} TrimTwice(s: string)
    ensures TrimSpace(TrimSpace(s)) == TrimSpace(s)
    decreases |s|
  {
    if s != "" && IsSpace(s[0]) {
      TrimTwice(s[1..]);
    } else if s != "" && IsSpace(s[|s| - 1]) {
      TrimTwice(s[..|s| - 1]);
    }
  }

  function Digits(n: nat): string {
    if n < 10 then ['0' + n as char] else Digits(n / 10) + ['0' + (n % 10) as char]
  }

  lemma CaseStays(t: string)
    ensures ToUpper(ToUpper(t)) == ToUpper(t) && ToLower(ToLower(t)) == ToLower(t)
  {
  }

  predicate NoSpaceAround(t: string) { t == "" || (!IsSpace(t[0]) && !IsSpace(t[|t| - 1])) }

  lemma TrimmedStays(t: string)
    requires NoSpaceAround(t)
    ensures TrimSpace(t) == t
  {
  }

  /** Upper and lower case of a trimmed text are trimmed, and done once for all. */
  lemma CasedTwice(s: string)
    ensures ToUpper(TrimSpace(ToUpper(TrimSpace(s)))) == ToUpper(TrimSpace(s))
    ensures ToLower(TrimSpace(ToLower(TrimSpace(s)))) == ToLower(TrimSpace(s))
  {
    var left, right := TrimExactly(s);
    var t := TrimSpace(s);
    CaseStays(t);
    TrimmedStays(ToUpper(t));
    TrimmedStays(ToLower(t));
  }

  predicate IsDigit(c: char) { '0' <= c <= '9' }

  /** The number that a row of digits reads as. */
  function Read(digits: string): int {
    if digits == "" then 0
    else 10 * Read(digits[..|digits| - 1]) + (digits[|digits| - 1] as int - '0' as int)
  }

  /** A number reads back from its digits, of which the first is a zero only when it is the only one. */
  lemma {:induction false} DigitsExactly(n: nat)
    ensures var s := Digits(n);
      s != "" && Read(s) == n && (forall i :: 0 <= i < |s| ==> IsDigit(s[i])) && (s[0] == '0' ==> n == 0 && |s| == 1)
  {
    var s := Digits(n);
    if n >= 10 {
      DigitsExactly(n / 10);
      assert s[..|s| - 1] == Digits(n / 10);
    } else {
      assert s[..0] == "";
    }
  }

  predicate Contains(s: string, part: string) {
    exists i :: 0 <= i <= |s| && part <= s[i..]
  }

  /** The part stands somewhere in the text. */
  ghost predicate PartOf(part: string, s: string) { exists a, b :: s == a + part + b }

  lemma ContainsExactly(s: string, part: string)
    ensures Contains(s, part) <==> PartOf(part, s)
  {
    if Contains(s, part) {
      var i :| 0 <= i <= |s| && part <= s[i..];
      assert s == s[..i] + part + s[i + |part|..];
    }
    if a, b :| s == a + part + b {
      assert s[|a|..] == part + b;
      assert 0 <= |a| <= |s| && part <= s[|a|..];
    }
  }

  /** Byte-wise dictionary order. */
  predicate AtMost(a: string, b: string) {
    a == "" || (b != "" && (a[0] < b[0] || (a[0] == b[0] && AtMost(a[1..], b[1..]))))
  }

  lemma {:induction false} AtMostTotal(a: string, b: string)
    ensures AtMost(a, b) || AtMost(b, a)
    ensures AtMost(a, b) && AtMost(b, a) ==> a == b
  {
    if a != "" && b != "" {
      AtMostTotal(a[1..], b[1..]);
      assert a == [a[0]] + a[1..] && b == [b[0]] + b[1..];
    }
  }

  lemma {:induction false} AtMostTransitive(a: string, b: string, c: string)
    requires AtMost(a, b) && AtMost(b, c)
    ensures AtMost(a, c)
  {
    if a != "" && a[0] == b[0] && b[0] == c[0] {
      AtMostTransitive(a[1..], b[1..], c[1..]);
    }
  }
}
