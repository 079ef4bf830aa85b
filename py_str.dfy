/** The Python string built-ins the scripts rely on: `str.lstrip`, `str.rstrip`
    and `str.strip` with a one-character argument, `str.split` on one
    character, `int(s)` on a string and `str(n)` on an integer. */
module PyStr {
  import opened Results

  // ---------------------------------------------------------------- strip

  /** `s.lstrip(c)`: drop every leading `c`. */
  function LStrip(s: string, c: char): (r: string)
    ensures |r| <= |s| && r == s[|s| - |r|..]
    ensures forall i :: 0 <= i < |s| - |r| ==> s[i] == c
    ensures r == [] || r[0] != c
    decreases |s|
  {
    if |s| > 0 && s[0] == c then
      var r := LStrip(s[1..], c);
      assert s[1..][|s| - 1 - |r|..] == s[|s| - |r|..];
      r
    else s
  }

  /** `s.rstrip(c)`: drop every trailing `c`. */
  function RStrip(s: string, c: char): (r: string)
    ensures |r| <= |s| && r == s[..|r|]
    ensures forall i :: |r| <= i < |s| ==> s[i] == c
    ensures r == [] || r[|r| - 1] != c
    decreases |s|
  {
    if |s| > 0 && s[|s| - 1] == c then
      var r := RStrip(s[..|s| - 1], c);
      assert s[..|s| - 1][..|r|] == s[..|r|];
      r
    else s
  }

  /** `r` is what is left of `s` once the runs of `c` at both ends are removed:
      an infix of `s`, everything outside it is `c`, and it neither starts nor
      ends with `c`. */
  ghost predicate IsStripped(s: string, c: char, r: string)
  {
    exists i :: 0 <= i <= |s| - |r| && r == s[i..][..|r|]
      && (forall k :: 0 <= k < i ==> s[k] == c)
      && (forall k :: i + |r| <= k < |s| ==> s[k] == c)
      && (r == [] || (r[0] != c && r[|r| - 1] != c))
  }

  /** `s.strip(c)`. */
  function Strip(s: string, c: char): string
  {
    LStrip(RStrip(s, c), c)
  }

  /** `s.strip(c)` removes exactly the runs of `c` at both ends. */
  lemma StripRemovesEnds(s: string, c: char)
    ensures IsStripped(s, c, Strip(s, c))
  {
    var t := RStrip(s, c);
    var r := LStrip(t, c);
    var i := |t| - |r|;
    assert r == s[i..][..|r|] by {
      forall k | 0 <= k < |r| ensures r[k] == s[i..][..|r|][k] {
        assert r[k] == t[i + k] == s[i + k];
      }
    }
    forall k | 0 <= k < i ensures s[k] == c {
      assert s[k] == t[k];
    }
    assert forall k :: i + |r| <= k < |s| ==> s[k] == c;
    assert r != [] ==> r[|r| - 1] == t[|t| - 1];
    StrippedAt(s, c, r, i);
  }

  lemma StrippedAt(s: string, c: char, r: string, i: int)
    requires 0 <= i <= |s| - |r| && r == s[i..][..|r|]
    requires forall k :: 0 <= k < i ==> s[k] == c
    requires forall k :: i + |r| <= k < |s| ==> s[k] == c
    requires r == [] || (r[0] != c && r[|r| - 1] != c)
    ensures IsStripped(s, c, r)
  {
  }

  /** Stripping a second time changes nothing. */
  lemma StripIdempotent(s: string, c: char)
    ensures Strip(Strip(s, c), c) == Strip(s, c)
  {
    var r := Strip(s, c);
    assert RStrip(r, c) == r;
    assert LStrip(r, c) == r;
  }

  // ---------------------------------------------------------------- split

  /** Number of occurrences of `c` in `s`. */
  function Count(s: string, c: char): nat
  {
    if s == [] then 0 else (if s[0] == c then 1 else 0) + Count(s[1..], c)
  }

  /** `s.split(c)` for a one-character separator: the pieces between the
      occurrences of `c`, one more piece than there are separators. */
  function Split(s: string, c: char): (r: seq<string>)
    ensures |r| == Count(s, c) + 1
    ensures forall i :: 0 <= i < |r| ==> c !in r[i]
    decreases |s|
  {
    if s == [] then [""]
    else
      var rest := Split(s[1..], c);
      if s[0] == c then [""] + rest else [[s[0]] + rest[0]] + rest[1..]
  }

  /** `c.join(parts)`. */
  function JoinWith(parts: seq<string>, c: char): string
  {
    if parts == [] then ""
    else if |parts| == 1 then parts[0]
    else parts[0] + [c] + JoinWith(parts[1..], c)
  }

  /** Splitting loses nothing: joining the pieces back gives the input. */
  lemma {:induction false} JoinSplit(s: string, c: char)
    ensures JoinWith(Split(s, c), c) == s
    decreases |s|
  {
    if s != [] {
      var rest := Split(s[1..], c);
      JoinSplit(s[1..], c);
      if s[0] == c {
        assert Split(s, c) == [""] + rest;
        assert ([""] + rest)[1..] == rest;
      } else {
        var parts := Split(s, c);
        assert parts == [[s[0]] + rest[0]] + rest[1..];
        if |rest| == 1 {
          assert JoinWith(rest, c) == rest[0];
        } else {
          assert JoinWith(rest, c) == rest[0] + [c] + JoinWith(rest[1..], c);
          assert parts[1..] == rest[1..];
        }
      }
    }
  }

  // ---------------------------------------------------------------- int() and str()

  /** The ASCII characters Python's `int()` skips around a number. */
  predicate IsSpace(ch: char)
  {
    ch == ' ' || ch == '\t' || ch == '\n' || ch == '\r' || ch == '\U{0B}' || ch == '\U{0C}'
  }

  predicate IsDigit(ch: char)
  {
    '0' <= ch <= '9'
  }

  predicate AllDigits(s: string)
  {
    forall i :: 0 <= i < |s| ==> IsDigit(s[i])
  }

  function TrimLeadingSpace(s: string): string
    decreases |s|
  {
    if |s| > 0 && IsSpace(s[0]) then TrimLeadingSpace(s[1..]) else s
  }

  function TrimTrailingSpace(s: string): string
    decreases |s|
  {
    if |s| > 0 && IsSpace(s[|s| - 1]) then TrimTrailingSpace(s[..|s| - 1]) else s
  }

  /** The value of a string of decimal digits, most significant first. */
  function DigitsValue(s: string): nat
    requires AllDigits(s)
    decreases |s|
  {
    if s == [] then 0
    else 10 * DigitsValue(s[..|s| - 1]) + (s[|s| - 1] as int - '0' as int)
  }

  /** `int(s)` on a string: optional surrounding whitespace, an optional sign,
      then one or more decimal digits; anything else raises ValueError. */
  function ParseInt(s: string): Option<int>
  {
    var t := TrimTrailingSpace(TrimLeadingSpace(s));
    var negative := |t| > 0 && t[0] == '-';
    var digits := if |t| > 0 && (t[0] == '-' || t[0] == '+') then t[1..] else t;
    if digits != [] && AllDigits(digits) then
      var v: int := DigitsValue(digits);
      Some(if negative then -v else v)
    else None
  }

  function DigitChar(d: nat): char
    requires d < 10
  {
    ('0' as int + d) as char
  }

  /** `str(n)` for a non-negative integer: its decimal digits, no leading zero. */
  function FormatNat(n: nat): (r: string)
    ensures r != [] && AllDigits(r)
    ensures |r| > 1 ==> r[0] != '0'
    decreases n
  {
    if n < 10 then [DigitChar(n)] else FormatNat(n / 10) + [DigitChar(n % 10)]
  }

  /** `str(k)` for an integer. */
  function FormatInt(k: int): string
  {
    if k < 0 then "-" + FormatNat(-k) else FormatNat(k)
  }

  lemma {:induction false} DigitsValueFormatNat(n: nat)
    ensures DigitsValue(FormatNat(n)) == n
    decreases n
  {
    if n >= 10 {
      DigitsValueFormatNat(n / 10);
      var s := FormatNat(n);
      assert s[..|s| - 1] == FormatNat(n / 10);
    }
  }

  /** `int(str(k)) == k` for every integer `k`. */
  lemma ParseFormatInt(k: int)
    ensures ParseInt(FormatInt(k)) == Some(k)
  {
    var s := FormatInt(k);
    var digits := FormatNat(if k < 0 then -k else k);
    DigitsValueFormatNat(if k < 0 then -k else k);
    assert !IsSpace(s[0]) && !IsSpace(s[|s| - 1]);
    assert TrimLeadingSpace(s) == s;
    assert TrimTrailingSpace(s) == s;
    if k < 0 {
      assert s[1..] == digits;
    }
  }

  /** Distinct integers print differently, so `str` keys never collide. */
  lemma FormatIntInjective()
    ensures forall a, b :: FormatInt(a) == FormatInt(b) ==> a == b
  {
    forall a, b | FormatInt(a) == FormatInt(b) ensures a == b {
      ParseFormatInt(a);
      ParseFormatInt(b);
    }
  }
}
