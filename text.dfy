/**
 * The few Python `str` operations the client relies on, over ASCII:
 * `str(int)`, `int(str)`, `str.upper()`, `str.strip()`, `str.split(sep)`
 * and `sep.join(parts)`.
 */
module Text {
  import opened Wrappers

  // ---------------------------------------------------------------- digits

  function DigitChar(d: nat): (c: char)
    requires d < 10
  {
    ('0' as int + d) as char
  }

  predicate IsDigit(c: char) { '0' <= c <= '9' }

  function DigitValue(c: char): (d: nat)
    requires IsDigit(c)
    ensures d < 10
  {
    (c as int - '0' as int) as nat
  }

  lemma DigitRoundTrip(d: nat)
    requires d < 10
    ensures IsDigit(DigitChar(d)) && DigitValue(DigitChar(d)) == d
  {
  }

  predicate AllDigits(s: string) { forall i :: 0 <= i < |s| ==> IsDigit(s[i]) }

  /** Decimal digits of a natural number, most significant first, no leading zeros. */
  function Digits(n: nat): (s: string)
    ensures |s| >= 1
    decreases n
  {
    if n < 10 then [DigitChar(n)] else Digits(n / 10) + [DigitChar(n % 10)]
  }

  lemma {:induction false} DigitsAreDigits(n: nat)
    ensures AllDigits(Digits(n))
    decreases n
  {
    DigitRoundTrip(n % 10);
    if n >= 10 {
      DigitsAreDigits(n / 10);
      var s := Digits(n);
      assert s[..|s| - 1] == Digits(n / 10);
      assert forall i :: 0 <= i < |s| - 1 ==> s[i] == Digits(n / 10)[i];
    }
  }

  /** `str(n)` for a Python int. */
  function ShowInt(n: int): (s: string)
  {
    if n < 0 then "-" + Digits(-n) else Digits(n)
  }

  /** `str(n)` is a minus sign or a digit at every position. */
  lemma ShowIntChars(n: int)
    ensures forall i :: 0 <= i < |ShowInt(n)| ==> ShowInt(n)[i] == '-' || IsDigit(ShowInt(n)[i])
  {
    var d := if n < 0 then -n else n;
    DigitsAreDigits(d);
    if n < 0 {
      assert forall i :: 1 <= i < |ShowInt(n)| ==> ShowInt(n)[i] == Digits(d)[i - 1];
    }
  }

  /** Value of a non-empty run of decimal digits. */
  function DigitsValue(s: string): (n: nat)
    requires AllDigits(s)
    decreases |s|
  {
    if |s| == 0 then 0 else DigitsValue(s[..|s| - 1]) * 10 + DigitValue(s[|s| - 1])
  }

  /**
   * `int(s)` for a string: an optional sign followed by at least one ASCII
   * digit; anything else raises ValueError, modelled as None.
   */
  function ParseInt(s: string): (r: Option<int>)
    ensures r.Some? ==> |s| >= 1
  {
    if |s| >= 2 && (s[0] == '-' || s[0] == '+') && AllDigits(s[1..]) then
      var v: int := DigitsValue(s[1..]);
      Some(if s[0] == '-' then -v else v)
    else if |s| >= 1 && AllDigits(s) then Some(DigitsValue(s))
    else None
  }

  lemma {:induction false} DigitsValueOfDigits(n: nat)
    ensures AllDigits(Digits(n)) && DigitsValue(Digits(n)) == n
    decreases n
  {
    DigitsAreDigits(n);
    if n >= 10 {
      var s := Digits(n);
      DigitsValueOfDigits(n / 10);
      assert s[..|s| - 1] == Digits(n / 10);
      DigitRoundTrip(n % 10);
    } else {
      DigitRoundTrip(n);
    }
  }

  /** `int(str(n)) == n`: the two conversions are inverse. */
  lemma ParseShowInt(n: int)
    ensures ParseInt(ShowInt(n)) == Some(n)
  {
    var s := ShowInt(n);
    if n < 0 {
      DigitsValueOfDigits(-n);
      assert s[1..] == Digits(-n);
      assert s[0] == '-' && AllDigits(s[1..]);
    } else {
      DigitsValueOfDigits(n);
      assert AllDigits(s);
      assert !IsDigit('-') && !IsDigit('+');
    }
  }

  // ----------------------------------------------------------------- case

  function UpperChar(c: char): (u: char)
  {
    if 'a' <= c <= 'z' then (c as int - 32) as char else c
  }

  /** `s.upper()` restricted to ASCII letters. */
  function Upper(s: string): (u: string)
    ensures |u| == |s|
    ensures forall i :: 0 <= i < |s| ==> u[i] == UpperChar(s[i])
  {
    seq(|s|, i requires 0 <= i < |s| => UpperChar(s[i]))
  }

  // ------------------------------------------------------------ whitespace

  /** Python's `str.isspace` on the ASCII range. */
  predicate IsSpace(c: char)
  {
    c == ' ' || c == '\t' || c == '\n' || c == '\r' || c == '\U{0B}' || c == '\U{0C}'
    || c == '\U{1C}' || c == '\U{1D}' || c == '\U{1E}' || c == '\U{1F}'
  }

  function TrimStart(s: string): (r: string)
    ensures |r| <= |s|
    ensures r == [] || !IsSpace(r[0])
  {
    if s == [] || !IsSpace(s[0]) then s else TrimStart(s[1..])
  }

  /** Trimming the start drops leading whitespace only: what is left is a suffix. */
  lemma {:induction false} TrimStartSpaces(s: string)
    ensures TrimStart(s) == s[|s| - |TrimStart(s)|..]
    ensures forall i :: 0 <= i < |s| - |TrimStart(s)| ==> IsSpace(s[i])
  {
    if s != [] && IsSpace(s[0]) {
      TrimStartSpaces(s[1..]);
      assert s[1..][|s| - 1 - |TrimStart(s)|..] == s[|s| - |TrimStart(s)|..];
      assert forall i :: 0 < i < |s| ==> s[i] == s[1..][i - 1];
    }
  }

  function TrimEnd(s: string): (r: string)
    ensures |r| <= |s|
    ensures r == [] || !IsSpace(r[|r| - 1])
  {
    if s == [] || !IsSpace(s[|s| - 1]) then s else TrimEnd(s[..|s| - 1])
  }

  /** Trimming the end drops trailing whitespace only: what is left is a prefix. */
  lemma {:induction false} TrimEndSpaces(s: string)
    ensures TrimEnd(s) == s[..|TrimEnd(s)|]
    ensures forall i :: |TrimEnd(s)| <= i < |s| ==> IsSpace(s[i])
  {
    if s != [] && IsSpace(s[|s| - 1]) {
      TrimEndSpaces(s[..|s| - 1]);
      assert s[..|s| - 1][..|TrimEnd(s)|] == s[..|TrimEnd(s)|];
    }
  }

  /**
   * `s.strip()`: the slice of `s` left after removing leading and trailing
   * whitespace; empty exactly when `s` is blank.
   */
  function Strip(s: string): (r: string)
    ensures r != [] ==> !IsSpace(r[0]) && !IsSpace(r[|r| - 1])
  {
    var t := TrimStart(s);
    TrimEndSpaces(t);
    TrimEnd(t)
  }

  /** Where the stripped text starts in `s`. */
  lemma StripAt(s: string) returns (i: nat)
    ensures i + |Strip(s)| <= |s| && Strip(s) == s[i..i + |Strip(s)|]
    ensures forall k :: 0 <= k < i ==> IsSpace(s[k])
    ensures forall k :: i + |Strip(s)| <= k < |s| ==> IsSpace(s[k])
  {
    var t := TrimStart(s);
    var r := TrimEnd(t);
    i := |s| - |t|;
    TrimStartSpaces(s);
    TrimEndSpaces(t);
    assert r == s[i..i + |r|];
    forall k | i + |r| <= k < |s| ensures IsSpace(s[k]) {
      assert s[k] == t[k - i];
    }
  }

  /**
   * What `strip` removes is whitespace at both ends and nothing else: the
   * result is a slice of `s`, empty exactly when `s` is blank, and it has
   * no character `s` lacks.
   */
  lemma StripSlice(s: string)
    ensures exists i, j :: 0 <= i <= j <= |s| && Strip(s) == s[i..j]
                       && (forall k :: 0 <= k < i ==> IsSpace(s[k]))
                       && (forall k :: j <= k < |s| ==> IsSpace(s[k]))
    ensures Strip(s) == [] <==> forall k :: 0 <= k < |s| ==> IsSpace(s[k])
    ensures forall x :: x in Strip(s) ==> x in s
  {
    var r := Strip(s);
    var i := StripAt(s);
    if r != [] {
      assert s[i] == r[0];
    }
    forall x | x in r ensures x in s {
      var k :| 0 <= k < |r| && r[k] == x;
      assert s[i + k] == x;
    }
  }

  /** Stripping twice strips once. */
  lemma StripIdempotent(s: string)
    ensures Strip(Strip(s)) == Strip(s)
  {
    StripUnchanged(Strip(s));
  }

  /** A string that neither starts nor ends with whitespace is its own strip. */
  lemma StripUnchanged(s: string)
    requires s != [] ==> !IsSpace(s[0]) && !IsSpace(s[|s| - 1])
    ensures Strip(s) == s
  {
  }

  /** `int(s)`: surrounding whitespace is ignored, then an optional sign and digits. */
  function IntOfString(s: string): Option<int>
  {
    ParseInt(Strip(s))
  }

  /** `int(str(n)) == n`. */
  lemma IntOfShowInt(n: int)
    ensures IntOfString(ShowInt(n)) == Some(n)
  {
    var s := ShowInt(n);
    ShowIntChars(n);
    assert s[0] == '-' || IsDigit(s[0]);
    assert IsDigit(s[|s| - 1]);
    StripUnchanged(s);
    ParseShowInt(n);
  }

  // ------------------------------------------------------------ split/join

  /** `sep.join(parts)`. */
  function Join(parts: seq<string>, sep: string): (r: string)
  {
    if parts == [] then ""
    else if |parts| == 1 then parts[0]
    else parts[0] + sep + Join(parts[1..], sep)
  }

  /** `s.split(c)` for a one-character separator: always at least one segment. */
  function Split(s: string, c: char): (r: seq<string>)
    ensures |r| >= 1
  {
    if s == [] then [[]]
    else
      var rest := Split(s[1..], c);
      if s[0] == c then [[]] + rest
      else [[s[0]] + rest[0]] + rest[1..]
  }

  /** No segment of a split contains the separator, and joining the segments with it gives back the string. */
  lemma {:induction false} SplitSegments(s: string, c: char)
    ensures forall k :: 0 <= k < |Split(s, c)| ==> c !in Split(s, c)[k]
    ensures Join(Split(s, c), [c]) == s
  {
    if s != [] {
      var rest := Split(s[1..], c);
      SplitSegments(s[1..], c);
      var r := Split(s, c);
      if s[0] == c {
        assert r == [[]] + rest;
        assert r[1..] == rest;
        assert forall k :: 1 <= k < |r| ==> r[k] == rest[k - 1];
        assert [c] + Join(rest, [c]) == s;
      } else {
        assert s == [s[0]] + s[1..];
        var head := [s[0]] + rest[0];
        assert r == [head] + rest[1..];
        assert c !in head by {
          assert forall x :: x in head ==> x == s[0] || x in rest[0];
        }
        assert forall k :: 1 <= k < |r| ==> r[k] == rest[k];
        assert Join(r, [c]) == s by {
          if |rest| == 1 {
          } else {
            assert r[1..] == rest[1..];
            assert Join(rest, [c]) == rest[0] + [c] + Join(rest[1..], [c]);
          }
        }
      }
    }
  }

  /** Splitting a join of separator-free segments gives the segments back. */
  lemma {:induction false} SplitJoin(parts: seq<string>, c: char)
    requires |parts| >= 1
    requires forall k :: 0 <= k < |parts| ==> c !in parts[k]
    ensures Split(Join(parts, [c]), c) == parts
    decreases |parts|, |parts[0]|
  {
    var s := Join(parts, [c]);
    if parts[0] == [] {
      if |parts| == 1 {
      } else {
        assert s == [c] + Join(parts[1..], [c]);
        assert s[1..] == Join(parts[1..], [c]);
        SplitJoin(parts[1..], c);
        assert s[0] == c;
      }
    } else {
      var tail := [parts[0][1..]] + parts[1..];
      assert c !in parts[0][1..] by {
        assert forall x :: x in parts[0][1..] ==> x in parts[0];
      }
      SplitJoin(tail, c);
      if |parts| == 1 {
        assert s == parts[0];
        assert s[1..] == Join(tail, [c]);
      } else {
        assert s == parts[0] + [c] + Join(parts[1..], [c]);
        assert Join(tail, [c]) == parts[0][1..] + [c] + Join(parts[1..], [c]);
        assert s[1..] == Join(tail, [c]);
      }
      assert s[0] == parts[0][0] && s[0] != c;
      assert [s[0]] + parts[0][1..] == parts[0];
    }
  }
}
