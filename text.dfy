/** The java.lang.String operations the back end relies on, over `seq<char>`.
    Case mapping covers the ASCII letters only. */
module Text {
  import opened Wrappers

  /** Character.toLowerCase restricted to ASCII. */
  function LowerChar(c: char): char {
    if 'A' <= c <= 'Z' then (c as int + 32) as char else c
  }

  /** String.toLowerCase (SQL LOWER): every character lowered, length kept. */
  function ToLower(s: string): (r: string)
    ensures |r| == |s|
    ensures forall i :: 0 <= i < |s| ==> r[i] == LowerChar(s[i])
  {
    if s == [] then [] else [LowerChar(s[0])] + ToLower(s[1..])
  }

  /** String.equalsIgnoreCase on a non-null argument. */
  predicate EqualsIgnoreCase(a: string, b: string) {
    ToLower(a) == ToLower(b)
  }

  /** String.startsWith. */
  predicate StartsWith(s: string, prefix: string) {
    |prefix| <= |s| && s[..|prefix|] == prefix
  }

  /** `sub` occurs in `s` at some position: SQL `s LIKE CONCAT('%', sub, '%')`
      when `sub` holds no wildcard characters. */
  predicate Contains(s: string, sub: string)
    decreases |s|
  {
    StartsWith(s, sub) || (s != [] && Contains(s[1..], sub))
  }

  /** `Contains` agrees with the position-based reading of substring search. */
  lemma {:induction false} ContainsIff(s: string, sub: string)
    ensures Contains(s, sub) <==> exists i :: 0 <= i <= |s| && StartsWith(s[i..], sub)
  {
    if s == [] {
      assert s[0..] == s;
    } else {
      ContainsIff(s[1..], sub);
      assert s[0..] == s;
      if exists i :: 0 <= i <= |s| && StartsWith(s[i..], sub) {
        var i :| 0 <= i <= |s| && StartsWith(s[i..], sub);
        if i > 0 {
          assert s[1..][i - 1..] == s[i..];
        }
      }
      if Contains(s[1..], sub) {
        var i :| 0 <= i <= |s[1..]| && StartsWith(s[1..][i..], sub);
        assert s[1..][i..] == s[i + 1..];
      }
    }
  }

  /** Case-insensitive containment, as `LOWER(x) LIKE LOWER(CONCAT('%', y, '%'))`. */
  predicate ContainsIgnoreCase(s: string, sub: string) {
    Contains(ToLower(s), ToLower(sub))
  }

  /** String.trim: strips leading and trailing characters up to U+0020. */
  function TrimStart(s: string): (r: string)
    ensures |r| <= |s| && r == s[|s| - |r|..]
    ensures r != [] ==> r[0] > ' '
    ensures forall i :: 0 <= i < |s| - |r| ==> s[i] <= ' '
  {
    if s != [] && s[0] <= ' ' then TrimStart(s[1..]) else s
  }

  function TrimEnd(s: string): (r: string)
    ensures |r| <= |s| && r == s[..|r|]
    ensures r != [] ==> r[|r| - 1] > ' '
    ensures forall i :: |r| <= i < |s| ==> s[i] <= ' '
  {
    if s != [] && s[|s| - 1] <= ' ' then TrimEnd(s[..|s| - 1]) else s
  }

  function Trim(s: string): string {
    TrimEnd(TrimStart(s))
  }

  /** `s.trim().isEmpty()` holds exactly when every character is at most U+0020. */
  lemma {:induction false} TrimIsEmptyIff(s: string)
    ensures Trim(s) == [] <==> forall i :: 0 <= i < |s| ==> s[i] <= ' '
  {
    var t := TrimStart(s);
    assert forall i :: |s| - |t| <= i < |s| ==> s[i] == t[i - (|s| - |t|)];
    assert |t| > 0 ==> t[0] == s[|s| - |t|];
  }

  /** String.length: UTF-16 code units, two for a character outside the
      Basic Multilingual Plane. */
  function Utf16Length(s: string): (n: nat)
    ensures |s| <= n <= 2 * |s|
  {
    if s == [] then 0
    else (if (s[0] as int) < 0x1_0000 then 1 else 2) + Utf16Length(s[1..])
  }

  /** The two lengths agree exactly on text within the Basic Multilingual
      Plane. */
  lemma {:induction false} Utf16LengthBmp(s: string)
    ensures Utf16Length(s) == |s| <==> forall i :: 0 <= i < |s| ==> (s[i] as int) < 0x1_0000
  {
    if s != [] {
      Utf16LengthBmp(s[1..]);
      assert forall i :: 1 <= i < |s| ==> s[i] == s[1..][i - 1];
    }
  }

  predicate IsDigit(c: char) {
    '0' <= c <= '9'
  }

  predicate AllDigits(s: string) {
    forall i :: 0 <= i < |s| ==> IsDigit(s[i])
  }

  /** The value of a string of decimal digits, most significant first. */
  function DigitsValue(s: string): nat
    requires AllDigits(s)
  {
    if s == [] then 0 else 10 * DigitsValue(s[..|s| - 1]) + (s[|s| - 1] as int - '0' as int)
  }

  const IntMin: int := -0x8000_0000
  const IntMax: int := 0x7fff_ffff

  /** Integer.parseInt(s): an optional sign, then one or more decimal digits,
      with a value within the range of a Java int; anything else throws. */
  function ParseInt(s: string): (r: Result<int>)
    ensures r.Returns? ==> IntMin <= r.value <= IntMax
    ensures r.Returns? ==> s != [] && AllDigits(if s[0] == '-' || s[0] == '+' then s[1..] else s)
    ensures r.Throws? ==> r.exception == "NumberFormatException"
  {
    if s == [] then Throws("NumberFormatException")
    else
      var digits := if s[0] == '-' || s[0] == '+' then s[1..] else s;
      if digits == [] || !AllDigits(digits) then Throws("NumberFormatException")
      else
        var n: int := DigitsValue(digits);
        var v := if s[0] == '-' then 0 - n else n;
        if IntMin <= v <= IntMax then Returns(v) else Throws("NumberFormatException")
  }

  /** The part of `s` before its first ':' (all of `s` when it has none). */
  function BeforeColon(s: string): (r: string)
    ensures |r| <= |s| && r == s[..|r|]
    ensures ':' !in r
    ensures |r| < |s| ==> s[|r|] == ':'
  {
    if s == [] || s[0] == ':' then [] else [s[0]] + BeforeColon(s[1..])
  }

  /** `s.split(":")[0]`. Java drops trailing empty fields, so a non-empty
      string made only of ':' splits into no fields and indexing throws. */
  function SplitColonFirst(s: string): (r: Result<string>)
    ensures r.Throws? <==> s != [] && forall i :: 0 <= i < |s| ==> s[i] == ':'
    ensures r.Returns? ==> r.value == BeforeColon(s)
  {
    if s != [] && forall i :: 0 <= i < |s| ==> s[i] == ':' then Throws("ArrayIndexOutOfBoundsException")
    else Returns(BeforeColon(s))
  }
}
