/** The few JavaScript built-ins on strings and numbers that the core relies on. */
module JsText {

  /** `Array.prototype.join(sep)` on an array of strings. */
  function Join(xs: seq<string>, sep: string): string
  {
    if |xs| == 0 then ""
    else if |xs| == 1 then xs[0]
    else xs[0] + sep + Join(xs[1..], sep)
  }

  /** Joining two or more strings with a one-character separator leaves that character in the result. */
  lemma JoinOfSeveralHasSeparator(xs: seq<string>, sep: char)
    requires |xs| >= 2
    ensures sep in Join(xs, [sep])
  {
    var joined := Join(xs, [sep]);
    assert joined == xs[0] + [sep] + Join(xs[1..], [sep]);
    assert joined[|xs[0]|] == sep;
  }

  /** An array joined with a one-character separator equals a non-empty word
      without that character exactly when the array is that one word. */
  lemma JoinEqualsWord(xs: seq<string>, sep: char, word: string)
    requires word != "" && sep !in word
    ensures Join(xs, [sep]) == word <==> |xs| == 1 && xs[0] == word
  {
    if |xs| >= 2 {
      JoinOfSeveralHasSeparator(xs, sep);
    }
  }

  /** `Array.prototype.slice(start)` with a non-negative start: the elements
      from index `start` on, none when `start` is past the end. */
  function SliceFrom<T>(xs: seq<T>, start: nat): (r: seq<T>)
    ensures |r| == if start <= |xs| then |xs| - start else 0
    ensures forall i :: 0 <= i < |r| ==> r[i] == xs[start + i]
  {
    if start <= |xs| then xs[start..] else []
  }

  /** `String.prototype.slice(0, -k)`: the string without its last `k` characters,
      or the empty string when it has fewer than `k`. */
  function DropLast(s: string, k: nat): (r: string)
    ensures |r| == if |s| >= k then |s| - k else 0
    ensures r <= s
  {
    if |s| >= k then s[..|s| - k] else ""
  }

  /** The number a string of decimal digits denotes. */
  function DecimalValue(s: string): int
  {
    if |s| == 0 then 0 else DecimalValue(s[..|s| - 1]) * 10 + (s[|s| - 1] as int - '0' as int)
  }

  /** A canonical decimal numeral: digits only, and no leading zero unless it is `0`. */
  predicate IsDecimal(s: string)
  {
    && |s| >= 1
    && (forall i :: 0 <= i < |s| ==> '0' <= s[i] <= '9')
    && (s[0] == '0' ==> |s| == 1)
  }

  /** The decimal digits of a natural number, as in `String(n)`. */
  function NatToString(n: nat): (r: string)
    ensures IsDecimal(r)
    ensures DecimalValue(r) == n
  {
    var d := ['0' + (n % 10) as char];
    if n < 10 then d
    else
      var prefix := NatToString(n / 10);
      assert (prefix + d)[..|prefix + d| - 1] == prefix;
      prefix + d
  }

  /** An integer as a template literal `${n}` renders it: its canonical decimal
      numeral, after a minus sign when negative. */
  function IntToString(n: int): (r: string)
    ensures n >= 0 ==> IsDecimal(r) && DecimalValue(r) == n
    ensures n < 0 ==> |r| >= 2 && r[0] == '-' && IsDecimal(r[1..]) && DecimalValue(r[1..]) == -n
  {
    if n >= 0 then NatToString(n)
    else
      var digits := NatToString(-n);
      assert ("-" + digits)[1..] == digits;
      "-" + digits
  }

  /** The default minimum password length renders as `8`. */
  lemma IntToStringOfDefault()
    ensures IntToString(8) == "8"
  {
  }

  /** The number of UTF-16 code units of a character: two for a character
      outside the Basic Multilingual Plane (a surrogate pair), one otherwise. */
  function CodeUnits(c: char): nat
  {
    if c as int >= 0x1_0000 then 2 else 1
  }

  /** `String.prototype.length`, which counts UTF-16 code units, not characters. */
  function Utf16Length(s: string): (n: nat)
    ensures |s| <= n <= 2 * |s|
    ensures n == |s| <==> forall i :: 0 <= i < |s| ==> s[i] as int < 0x1_0000
  {
    if |s| == 0 then 0
    else
      var init := s[..|s| - 1];
      assert forall i :: 0 <= i < |init| ==> init[i] == s[i];
      Utf16Length(init) + CodeUnits(s[|s| - 1])
  }

  /** The length of a concatenation is the sum of the lengths. */
  lemma {:induction false} Utf16LengthAppend(s: string, t: string)
    ensures Utf16Length(s + t) == Utf16Length(s) + Utf16Length(t)
  {
    if |t| == 0 {
      assert s + t == s;
    } else {
      var init := t[..|t| - 1];
      Utf16LengthAppend(s, init);
      assert (s + t)[..|s + t| - 1] == s + init;
    }
  }

  /** `parseInt(x, 10)` applied to a number: the number with its fractional
      part dropped, rounding toward zero. */
  function Truncate(x: real): (r: int)
    ensures 0.0 <= x ==> 0 <= r && r as real <= x < r as real + 1.0
    ensures x < 0.0 ==> r <= 0 && r as real - 1.0 < x <= r as real
  {
    if x >= 0.0 then x.Floor else -((-x).Floor)
  }

  /** Truncating a non-negative number keeps it under any bound it was under. */
  lemma TruncateBelow(x: real, bound: real)
    requires 0.0 <= x <= bound
    ensures 0 <= Truncate(x) && Truncate(x) as real <= bound
  {
    assert Truncate(x) as real <= x;
  }

  /** Truncation never decreases when its argument grows. */
  lemma TruncateMonotonic(x: real, y: real)
    requires x <= y
    ensures Truncate(x) <= Truncate(y)
  {
    if x < 0.0 && 0.0 <= y {
    } else if 0.0 <= x {
      assert (x.Floor as real) <= y;
    } else {
      assert ((-y).Floor as real) <= -x;
    }
  }
}
