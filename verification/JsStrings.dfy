/** The ECMAScript string operations the modelled code relies on. */
module JsStrings {

  /** WhiteSpace and LineTerminator code points, as String.prototype.trim removes them. */
  predicate IsSpace(c: char) {
    var u := c as int;
    || 0x09 <= u <= 0x0D || u == 0x20 || u == 0xA0 || u == 0x1680 || 0x2000 <= u <= 0x200A
    || u == 0x2028 || u == 0x2029 || u == 0x202F || u == 0x205F || u == 0x3000 || u == 0xFEFF
  }

  function TrimStart(s: string): (t: string)
    ensures |t| <= |s| && t == s[|s| - |t|..]
    ensures t != "" ==> !IsSpace(t[0])
    ensures forall k :: 0 <= k < |s| - |t| ==> IsSpace(s[k])
  {
    if s == "" || !IsSpace(s[0]) then s else TrimStart(s[1..])
  }

  function TrimEnd(s: string): (t: string)
    ensures |t| <= |s| && t == s[..|t|]
    ensures t != "" ==> !IsSpace(t[|t| - 1])
    ensures forall k :: |t| <= k < |s| ==> IsSpace(s[k])
  {
    if s == "" || !IsSpace(s[|s| - 1]) then s else TrimEnd(s[..|s| - 1])
  }

  function Trim(s: string): (t: string) {
    TrimStart(TrimEnd(s))
  }

  /** Trim keeps one stretch of the string: everything outside it is white space, its ends are not. */
  lemma TrimIsStretch(s: string) returns (from: nat, to: nat)
    ensures from <= to <= |s| && Trim(s) == s[from..to]
    ensures forall k :: 0 <= k < |s| && !(from <= k < to) ==> IsSpace(s[k])
    ensures from < to ==> !IsSpace(s[from]) && !IsSpace(s[to - 1])
  {
    hide IsSpace, TrimStart, TrimEnd;
    var e := TrimEnd(s);
    var t := TrimStart(e);
    from, to := |e| - |t|, |e|;
    assert t == e[from..] == s[from..to];
    if from < to {
      assert s[to - 1] == e[to - 1] && s[from] == t[0];
    }
    forall k | 0 <= k < |s| && !(from <= k < to) ensures IsSpace(s[k]) {
      if k < from {
        assert s[k] == e[k];
      }
    }
  }

  /** A string whose ends are not white space is left alone. */
  lemma TrimFixed(s: string)
    requires s == "" || (!IsSpace(s[0]) && !IsSpace(s[|s| - 1]))
    ensures Trim(s) == s && TrimEnd(s) == s
  {
  }

  predicate Blank(s: string) {
    Trim(s) == ""
  }

  /** toLowerCase, for ASCII letters. */
  function Lower(s: string): (t: string)
    ensures |t| == |s|
  {
    seq(|s|, i requires 0 <= i < |s| => if 'A' <= s[i] <= 'Z' then s[i] - 'A' + 'a' else s[i])
  }

  function Digit(d: nat): char
    requires d < 10
  {
    '0' + d as char
  }

  function NatText(n: nat): (s: string)
    ensures |s| > 0 && '-' !in s
  {
    if n < 10 then [Digit(n)] else NatText(n / 10) + [Digit(n % 10)]
  }

  function DigitValue(c: char): int {
    c as int - '0' as int
  }

  /** What decimal digits denote, read from the left. */
  function ValueOf(s: string): int {
    if s == "" then 0 else 10 * ValueOf(s[..|s| - 1]) + DigitValue(s[|s| - 1])
  }

  /** The text of a number is decimal digits that denote it, without a leading zero. */
  lemma {:induction false} NatTextReads(n: nat)
    ensures ValueOf(NatText(n)) == n
    ensures forall i :: 0 <= i < |NatText(n)| ==> '0' <= NatText(n)[i] <= '9'
    ensures n > 0 ==> NatText(n)[0] != '0'
  {
    var s := NatText(n);
    if n < 10 {
      assert s[..0] == "";
      assert ValueOf(s) == 10 * ValueOf("") + DigitValue(s[0]);
    } else {
      NatTextReads(n / 10);
      assert s[..|s| - 1] == NatText(n / 10);
    }
  }

  /** String(n) */
  function IntText(n: int): (s: string)
    ensures |s| > 0
  {
    if n < 0 then "-" + NatText(-n) else NatText(n)
  }
}
