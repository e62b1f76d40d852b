/**
 * The few Python string operations the downloader relies on, on `seq<char>`:
 * `str.strip()`, `str.lower()`, `str.split(sep)`, `sep.join(parts)`, `int(s)` and
 * the decimal rendering `str(k)` / `f"{k}"` of a non-negative integer.
 */
module Text {
  import opened Wrappers

  /** `str.isspace()` on the ASCII range: space, \t \n \v \f \r and the separators U+001C..U+001F. */
  predicate IsSpace(c: char) {
    c == ' ' || 9 <= c as int <= 13 || 28 <= c as int <= 31
  }

  predicate IsDigit(c: char) {
    '0' <= c <= '9'
  }

  predicate AllDigits(s: string) {
    forall i :: 0 <= i < |s| ==> IsDigit(s[i])
  }

  /** Neither end of `s` is whitespace: `s` is what `strip()` leaves. */
  predicate Trimmed(s: string) {
    s == [] || (!IsSpace(s[0]) && !IsSpace(s[|s| - 1]))
  }

  // ---------------------------------------------------------------------------
  // strip(): the longest infix with no whitespace at either end

  /** The first position at or after `i` that is not whitespace, or `|s|`: where `lstrip()` cuts. */
  function SkipLeft(s: string, i: nat): (j: nat)
    requires i <= |s|
    ensures i <= j <= |s|
    ensures forall k :: i <= k < j ==> IsSpace(s[k])
    ensures j == |s| || !IsSpace(s[j])
    decreases |s| - i
  {
    if i < |s| && IsSpace(s[i]) then SkipLeft(s, i + 1) else i
  }

  /** The end of `s[lo..j]` once its trailing whitespace is dropped: where `rstrip()` cuts. */
  function SkipRight(s: string, lo: nat, j: nat): (e: nat)
    requires lo <= j <= |s|
    ensures lo <= e <= j
    ensures forall k :: e <= k < j ==> IsSpace(s[k])
    ensures e == lo || !IsSpace(s[e - 1])
    decreases j
  {
    if lo < j && IsSpace(s[j - 1]) then SkipRight(s, lo, j - 1) else j
  }

  /** Where the stripped string starts. */
  function Start(s: string): nat
    ensures Start(s) <= |s|
  {
    SkipLeft(s, 0)
  }

  /** Where the stripped string ends. */
  function End(s: string): nat
    ensures Start(s) <= End(s) <= |s|
  {
    SkipRight(s, Start(s), |s|)
  }

  /** `s.strip()`: the infix of `s` between its leading and its trailing whitespace. */
  function Strip(s: string): (r: string)
    ensures Trimmed(r)
  {
    s[Start(s)..End(s)]
  }

  /** What `strip()` removes is whitespace, on both sides, and what it keeps is the infix between. */
  lemma StripRemovesSpace(s: string)
    ensures Strip(s) == s[Start(s)..End(s)]
    ensures forall k :: 0 <= k < Start(s) ==> IsSpace(s[k])
    ensures forall k :: End(s) <= k < |s| ==> IsSpace(s[k])
  {
    var i := Start(s);
    assert forall k :: 0 <= k < i ==> IsSpace(s[k]);
    assert forall k :: End(s) <= k < |s| ==> IsSpace(s[k]);
  }

  /** A string that is already trimmed is left alone by `strip()`; in particular `strip()` is idempotent. */
  lemma StripTrimmed(s: string)
    requires Trimmed(s)
    ensures Strip(s) == s
  {
    if s != [] {
      assert SkipLeft(s, 0) == 0;
      assert SkipRight(s, 0, |s|) == |s|;
      assert s[0..|s|] == s;
    }
  }

  lemma StripIdempotent(s: string)
    ensures Strip(Strip(s)) == Strip(s)
  {
    StripTrimmed(Strip(s));
  }

  // ---------------------------------------------------------------------------
  // lower()

  predicate IsUpper(c: char) {
    'A' <= c <= 'Z'
  }

  function LowerChar(c: char): char {
    if IsUpper(c) then (c as int + 32) as char else c
  }

  /** `s.lower()` on the ASCII letters. */
  function Lower(s: string): string {
    seq(|s|, i requires 0 <= i < |s| => LowerChar(s[i]))
  }

  /** Lower-casing changes exactly the upper-case letters. */
  lemma LowerKeeps(s: string)
    ensures |Lower(s)| == |s|
    ensures (forall i :: 0 <= i < |s| ==> !IsUpper(s[i])) ==> Lower(s) == s
    ensures forall i :: 0 <= i < |s| ==> !IsUpper(Lower(s)[i])
  {
  }

  lemma LowerIdempotent(s: string)
    ensures Lower(Lower(s)) == Lower(s)
  {
    LowerKeeps(s);
    LowerKeeps(Lower(s));
  }

  /** Lower-casing keeps whitespace where it was, so both cut points stay where they are. */
  lemma {:induction false} SkipLeftLower(s: string, i: nat)
    requires i <= |s|
    ensures |Lower(s)| == |s| && SkipLeft(Lower(s), i) == SkipLeft(s, i)
    decreases |s| - i
  {
    if i < |s| {
      assert IsSpace(Lower(s)[i]) == IsSpace(s[i]);
      SkipLeftLower(s, i + 1);
    }
  }

  lemma {:induction false} SkipRightLower(s: string, lo: nat, j: nat)
    requires lo <= j <= |s|
    ensures |Lower(s)| == |s| && SkipRight(Lower(s), lo, j) == SkipRight(s, lo, j)
    decreases j
  {
    if lo < j {
      assert IsSpace(Lower(s)[j - 1]) == IsSpace(s[j - 1]);
      SkipRightLower(s, lo, j - 1);
    }
  }

  lemma StripLower(s: string)
    ensures Strip(Lower(s)) == Lower(Strip(s))
  {
    SkipLeftLower(s, 0);
    SkipRightLower(s, Start(s), |s|);
    assert Start(Lower(s)) == Start(s);
    assert End(Lower(s)) == End(s);
    LowerSlice(s, Start(s), End(s));
  }

  /** Lower-casing a slice is slicing the lower-cased string. */
  lemma LowerSlice(s: string, a: nat, b: nat)
    requires a <= b <= |s|
    ensures Lower(s)[a..b] == Lower(s[a..b])
  {
    var l := Lower(s)[a..b];
    var r := Lower(s[a..b]);
    assert |l| == |r|;
    forall k | 0 <= k < |l|
      ensures l[k] == r[k]
    {
      assert l[k] == LowerChar(s[a + k]);
      assert r[k] == LowerChar(s[a..b][k]);
    }
  }

  // ---------------------------------------------------------------------------
  // split() and join()

  /** The position of the first `c` in `s`. */
  function IndexOf(s: string, c: char): (k: nat)
    requires c in s
    ensures k < |s| && s[k] == c && c !in s[..k]
  {
    if s[0] == c then 0
    else
      var k := IndexOf(s[1..], c);
      assert s[..k + 1] == [s[0]] + s[1..][..k];
      1 + k
  }

  /** `sep.join(parts)`. */
  function JoinWith(parts: seq<string>, sep: char): string
    requires |parts| > 0
  {
    if |parts| == 1 then parts[0] else parts[0] + [sep] + JoinWith(parts[1..], sep)
  }

  /** A property of every character of the pieces and of the separator holds of every character of the joined string. */
  lemma {:induction false} JoinWithChars(parts: seq<string>, sep: char, p: char -> bool)
    requires |parts| > 0 && p(sep)
    requires forall i, k :: 0 <= i < |parts| && 0 <= k < |parts[i]| ==> p(parts[i][k])
    ensures forall k :: 0 <= k < |JoinWith(parts, sep)| ==> p(JoinWith(parts, sep)[k])
    decreases |parts|
  {
    if |parts| > 1 {
      var rest := parts[1..];
      assert forall i, k :: 0 <= i < |rest| && 0 <= k < |rest[i]| ==> rest[i][k] == parts[i + 1][k];
      JoinWithChars(rest, sep, p);
      var t := JoinWith(rest, sep);
      var s := parts[0] + [sep] + t;
      forall k | 0 <= k < |s|
        ensures p(s[k])
      {
        if k < |parts[0]| {
          assert s[k] == parts[0][k];
        } else if k > |parts[0]| {
          assert s[k] == t[k - |parts[0]| - 1];
        }
      }
    }
  }

  /** `s.split(sep)` for a one-character separator: pieces free of `sep` that `sep.join` reassembles into `s`. */
  function Split(s: string, sep: char): (parts: seq<string>)
    ensures |parts| > 0
    ensures forall i :: 0 <= i < |parts| ==> sep !in parts[i]
    ensures JoinWith(parts, sep) == s
    decreases |s|
  {
    if sep !in s then [s]
    else
      var k := IndexOf(s, sep);
      var rest := Split(s[k + 1..], sep);
      assert ([s[..k]] + rest)[1..] == rest;
      assert s == s[..k] + [sep] + s[k + 1..];
      [s[..k]] + rest
  }

  /** `split` inverts `join` whenever no piece contains the separator. */
  lemma {:induction false} SplitJoinWith(parts: seq<string>, sep: char)
    requires |parts| > 0
    requires forall i :: 0 <= i < |parts| ==> sep !in parts[i]
    ensures Split(JoinWith(parts, sep), sep) == parts
    decreases |parts|
  {
    if |parts| > 1 {
      var p := parts[0];
      var tail := JoinWith(parts[1..], sep);
      var s := p + [sep] + tail;
      assert s[|p|] == sep;
      var k := IndexOf(s, sep);
      assert s[..k] == p;
      assert s[k + 1..] == tail;
      SplitJoinWith(parts[1..], sep);
      assert JoinWith(parts, sep) == s;
      assert Split(s, sep) == [p] + Split(tail, sep);
      assert parts == [p] + parts[1..];
    }
  }

  // ---------------------------------------------------------------------------
  // Decimal numbers: int() and str()

  function DigitValue(c: char): nat
    requires IsDigit(c)
  {
    c as int - '0' as int
  }

  /** The value of a string of decimal digits (0 for the empty string). */
  function DigitsValue(ds: string): nat
    requires AllDigits(ds)
  {
    if ds == [] then 0 else 10 * DigitsValue(ds[..|ds| - 1]) + DigitValue(ds[|ds| - 1])
  }

  function DigitChar(d: nat): (c: char)
    requires d < 10
    ensures IsDigit(c) && DigitValue(c) == d
  {
    ('0' as int + d) as char
  }

  /** `str(k)`: the canonical decimal rendering, which reads back as `k`. */
  function Dec(k: nat): (s: string)
    ensures s != [] && AllDigits(s) && DigitsValue(s) == k
    ensures |s| > 1 ==> s[0] != '0'
  {
    if k < 10 then [DigitChar(k)]
    else
      var s := Dec(k / 10) + [DigitChar(k % 10)];
      assert s[..|s| - 1] == Dec(k / 10);
      s
  }

  /** One or more decimal digits and nothing else. */
  function ParseDigits(ds: string): (r: Option<nat>)
    ensures r.Some? <==> ds != [] && AllDigits(ds)
  {
    if ds != [] && AllDigits(ds) then Some(DigitsValue(ds)) else None
  }

  /**
   * Python's `int(s)` on a string: optional surrounding whitespace, an optional
   * sign, then one or more decimal digits; anything else is a ValueError (None).
   */
  function ParseInt(s: string): Option<int> {
    ParseSigned(Strip(s))
  }

  /** An optional sign followed by one or more decimal digits. */
  function ParseSigned(t: string): Option<int> {
    if t != [] && (t[0] == '+' || t[0] == '-') then
      match ParseDigits(t[1..])
      case None => None
      case Some(v) => var m: int := v; Some(if t[0] == '-' then -m else m)
    else
      match ParseDigits(t)
      case None => None
      case Some(v) => Some(v)
  }

  /** `int(str(k)) == k`. */
  lemma ParseIntDec(k: nat)
    ensures ParseInt(Dec(k)) == Some(k)
  {
    var s := Dec(k);
    assert !IsSpace(s[0]) && !IsSpace(s[|s| - 1]);
    StripTrimmed(s);
    assert s[0] != '+' && s[0] != '-';
  }

  /** `int('')` is a ValueError. */
  lemma ParseIntEmpty()
    ensures ParseInt("") == None
  {
    assert Strip("") == "";
  }

  /** Whitespace around a number does not change what `int()` reads. */
  lemma ParseIntStrip(s: string)
    ensures ParseInt(Strip(s)) == ParseInt(s)
  {
    StripIdempotent(s);
  }

  /** `int()` accepts only digits, signs and whitespace. */
  lemma ParseIntChars(s: string, i: int)
    requires ParseInt(s).Some? && 0 <= i < |s|
    ensures IsDigit(s[i]) || IsSpace(s[i]) || s[i] == '+' || s[i] == '-'
  {
    StripRemovesSpace(s);
    var j := Start(s);
    if j <= i < End(s) {
      assert s[i] == Strip(s)[i - j];
      SignedChars(Strip(s), i - j);
    }
  }

  /** An integer literal without surrounding whitespace is a sign and digits. */
  lemma SignedChars(t: string, k: int)
    requires ParseSigned(t).Some? && 0 <= k < |t|
    ensures IsDigit(t[k]) || t[k] == '+' || t[k] == '-'
  {
    if k > 0 && (t[0] == '+' || t[0] == '-') {
      assert ParseDigits(t[1..]).Some?;
      assert t[k] == t[1..][k - 1];
    }
  }

  /** Lower-casing leaves digit strings alone and keeps every non-digit a non-digit. */
  lemma ParseDigitsLower(x: string)
    ensures ParseDigits(Lower(x)) == ParseDigits(x)
  {
    if AllDigits(x) {
      assert Lower(x) == x;
    } else {
      var i :| 0 <= i < |x| && !IsDigit(x[i]);
      assert !IsDigit(Lower(x)[i]);
    }
  }

  lemma ParseSignedLower(t: string)
    ensures ParseSigned(Lower(t)) == ParseSigned(t)
  {
    var lt := Lower(t);
    if t != [] {
      assert lt[1..] == Lower(t[1..]);
      ParseDigitsLower(t[1..]);
    }
    ParseDigitsLower(t);
  }

  /** Lower-casing is invisible to `int()`: a letter is never a digit, sign or space either way. */
  lemma ParseIntLower(s: string)
    ensures ParseInt(Lower(s)) == ParseInt(s)
  {
    StripLower(s);
    ParseSignedLower(Strip(s));
  }
}
