/**
 * The JavaScript string operations the chat engine relies on: whitespace as
 * ECMAScript defines it (what `\s` matches and what `trim` removes),
 * `startsWith`, `split` on a non-empty separator and its inverse `join`, and
 * the decimal rendering of a status code inside a template string.
 */
module Text {

  /** ECMAScript WhiteSpace and LineTerminator code points: what `\s` matches and what `trim` removes. */
  predicate IsSpace(c: char) {
    || c == '\t' || c == '\n' || c == '\U{000B}' || c == '\U{000C}' || c == '\r' || c == ' '
    || c == '\U{00A0}' || c == '\U{1680}' || ('\U{2000}' <= c <= '\U{200A}')
    || c == '\U{2028}' || c == '\U{2029}' || c == '\U{202F}' || c == '\U{205F}'
    || c == '\U{3000}' || c == '\U{FEFF}'
  }

  predicate AllSpace(s: string) {
    forall i :: 0 <= i < |s| ==> IsSpace(s[i])
  }

  /** Drops leading whitespace: the `\s*` of a regular expression anchored at the start. */
  function TrimStart(s: string): (r: string)
    ensures |r| <= |s|
  {
    if s != [] && IsSpace(s[0]) then TrimStart(s[1..]) else s
  }

  /** What `TrimStart` drops is whitespace at the front, and what it keeps starts with none. */
  lemma {:induction false} TrimStartShape(s: string)
    ensures var r := TrimStart(s);
      && r == s[|s| - |r|..]
      && AllSpace(s[..|s| - |r|])
      && (r == "" || !IsSpace(r[0]))
    decreases |s|
  {
    if s != [] && IsSpace(s[0]) {
      TrimStartShape(s[1..]);
      var r := TrimStart(s);
      assert s[1..][|s| - 1 - |r|..] == s[|s| - |r|..];
      forall i | 0 <= i < |s| - |r| ensures IsSpace(s[i]) {
        if i > 0 {
          assert s[i] == s[1..][..|s| - 1 - |r|][i - 1];
        }
      }
    }
  }

  /** Drops trailing whitespace. */
  function TrimEnd(s: string): (r: string)
    ensures |r| <= |s|
  {
    if s != [] && IsSpace(s[|s| - 1]) then TrimEnd(s[..|s| - 1]) else s
  }

  /** What `TrimEnd` drops is whitespace at the back, and what it keeps ends with none. */
  lemma {:induction false} TrimEndShape(s: string)
    ensures var r := TrimEnd(s);
      && r == s[..|r|]
      && AllSpace(s[|r|..])
      && (r == "" || !IsSpace(r[|r| - 1]))
    decreases |s|
  {
    if s != [] && IsSpace(s[|s| - 1]) {
      var t := s[..|s| - 1];
      TrimEndShape(t);
      var r := TrimEnd(s);
      assert t[..|r|] == s[..|r|];
      forall i | |r| <= i < |s| ensures IsSpace(s[i]) {
        if i < |s| - 1 {
          assert s[i] == t[|r|..][i - |r|];
        }
      }
    }
  }

  /** `String.prototype.trim`. */
  function Trim(s: string): (r: string)
  {
    TrimEnd(TrimStart(s))
  }

  /** A trimmed string neither starts nor ends with whitespace. */
  lemma TrimShape(s: string)
    ensures var r := Trim(s); r == "" || (!IsSpace(r[0]) && !IsSpace(r[|r| - 1]))
  {
    var t := TrimStart(s);
    TrimStartShape(s);
    TrimEndShape(t);
    var r := Trim(s);
    if r != "" {
      assert r[0] == t[0];
    }
  }

  /** `s.trim()` is empty exactly when every character of `s` is whitespace. */
  lemma TrimEmptyIffBlank(s: string)
    ensures Trim(s) == "" <==> AllSpace(s)
  {
    var t := TrimStart(s);
    TrimStartShape(s);
    TrimEndShape(t);
    if Trim(s) == "" {
      assert t == [];
      assert s[..|s|] == s;
    } else {
      assert t != "" && !IsSpace(t[0]);
      assert t[0] == s[|s| - |t|];
    }
  }

  /** Leading whitespace, once dropped, is gone. */
  lemma TrimStartIdempotent(s: string)
    ensures TrimStart(TrimStart(s)) == TrimStart(s)
  {
    TrimStartShape(s);
  }

  /** Trimming only removes whitespace, and only from the two ends. */
  lemma TrimParts(s: string) returns (lead: string, trail: string)
    ensures AllSpace(lead) && AllSpace(trail)
    ensures s == lead + Trim(s) + trail
  {
    var t := TrimStart(s);
    var p := TrimEnd(t);
    TrimStartShape(s);
    TrimEndShape(t);
    lead := s[..|s| - |t|];
    trail := t[|p|..];
    assert s == lead + t;
    assert t == p + trail;
  }

  /** `s.startsWith(prefix)`. */
  predicate StartsWith(s: string, prefix: string) {
    |prefix| <= |s| && s[..|prefix|] == prefix
  }

  /** `sep` occurs in `s` at position `i`. */
  predicate SepAt(s: string, i: int, sep: string) {
    0 <= i && i + |sep| <= |s| && s[i..i + |sep|] == sep
  }

  /** No occurrence of `sep` anywhere in `s`. */
  ghost predicate Free(s: string, sep: string) {
    forall i :: !SepAt(s, i, sep)
  }

  /**
   * `s.split(sep)` for a non-empty separator: the separator is searched for
   * from the left, each occurrence found ends one piece, and the text after
   * the last occurrence is the last piece.
   */
  function Split(s: string, sep: string): (r: seq<string>)
    requires sep != ""
    ensures |r| >= 1
    decreases |s|
  {
    if |s| < |sep| then [s]
    else if s[..|sep|] == sep then [""] + Split(s[|sep|..], sep)
    else
      var rest := Split(s[1..], sep);
      [[s[0]] + rest[0]] + rest[1..]
  }

  /** `pieces.join(sep)`. */
  function Join(pieces: seq<string>, sep: string): string
    requires |pieces| >= 1
  {
    if |pieces| == 1 then pieces[0] else pieces[0] + sep + Join(pieces[1..], sep)
  }

  /** Joining the pieces of a split with the same separator gives the text back. */
  lemma {:induction false} SplitJoin(s: string, sep: string)
    requires sep != ""
    ensures Join(Split(s, sep), sep) == s
    decreases |s|
  {
    var k := |sep|;
    if |s| < k {
    } else if s[..k] == sep {
      SplitJoin(s[k..], sep);
      assert s == s[..k] + s[k..];
    } else {
      var rest := Split(s[1..], sep);
      SplitJoin(s[1..], sep);
      assert s == [s[0]] + s[1..];
      if |rest| > 1 {
        assert Join(rest, sep) == rest[0] + sep + Join(rest[1..], sep);
        assert ([[s[0]] + rest[0]] + rest[1..])[1..] == rest[1..];
      }
    }
  }

  /** The last piece of a split holds no occurrence of the separator. */
  lemma {:induction false} SplitLastFree(s: string, sep: string)
    requires sep != ""
    ensures var p := Split(s, sep); Free(p[|p| - 1], sep)
    decreases |s|
  {
    var k := |sep|;
    if |s| < k {
    } else if s[..k] == sep {
      SplitLastFree(s[k..], sep);
    } else {
      var rest := Split(s[1..], sep);
      SplitLastFree(s[1..], sep);
      if |rest| == 1 {
        SplitJoin(s[1..], sep);
        assert rest[0] == s[1..];
        assert [s[0]] + rest[0] == s;
        forall i ensures !SepAt(s, i, sep) {
          if i == 0 {
            assert s[0..k] == s[..k];
          } else if 0 < i && i + k <= |s| {
            assert s[i..i + k] == s[1..][i - 1..i - 1 + k];
            assert !SepAt(s[1..], i - 1, sep);
          }
        }
      }
    }
  }

  /** Unfolds `Split` where the text starts with the separator. */
  lemma SplitAtSeparator(s: string, sep: string)
    requires sep != "" && StartsWith(s, sep)
    ensures Split(s, sep) == [""] + Split(s[|sep|..], sep)
  {
  }

  /** Unfolds `Split` where the text does not start with the separator. */
  lemma SplitPastChar(s: string, sep: string)
    requires sep != "" && |s| >= |sep| && !StartsWith(s, sep)
    ensures var rest := Split(s[1..], sep);
      Split(s, sep) == [[s[0]] + rest[0]] + rest[1..]
  {
  }

  /** The cut property of `SplitAppend`, as one predicate. */
  predicate SplitsAcross(x: string, y: string, sep: string)
    requires sep != ""
  {
    var p := Split(x, sep);
    Split(x + y, sep) == p[..|p| - 1] + Split(p[|p| - 1] + y, sep)
  }

  /**
   * Splitting `x + y` finds the same separators inside `x` as splitting `x`
   * alone, except that the last piece of `x` is split again together with `y`:
   * a separator never straddles a boundary unnoticed, and never twice.
   */
  lemma {:induction false} SplitAppend(x: string, y: string, sep: string)
    requires sep != ""
    ensures SplitsAcross(x, y, sep)
    decreases |x|, 1
  {
    if |x| < |sep| {
      assert Split(x, sep) == [x];
    } else if StartsWith(x, sep) {
      SplitAppendAtSeparator(x, y, sep);
    } else {
      SplitAppendPastChar(x, y, sep);
    }
  }

  lemma {:induction false} SplitAppendAtSeparator(x: string, y: string, sep: string)
    requires sep != "" && StartsWith(x, sep)
    ensures SplitsAcross(x, y, sep)
    decreases |x|, 0
  {
    var k := |sep|;
    var tail := x[k..];
    assert (x + y)[..k] == x[..k];
    assert (x + y)[k..] == tail + y;
    SplitAtSeparator(x, sep);
    SplitAtSeparator(x + y, sep);
    SplitAppend(tail, y, sep);
    var p := Split(x, sep);
    var q := Split(tail, sep);
    assert p == [""] + q;
    assert p[|p| - 1] == q[|q| - 1];
    assert p[..|p| - 1] == [""] + q[..|q| - 1];
  }

  lemma {:induction false} SplitAppendPastChar(x: string, y: string, sep: string)
    requires sep != "" && |x| >= |sep| && !StartsWith(x, sep)
    ensures SplitsAcross(x, y, sep)
    decreases |x|, 0
  {
    var k := |sep|;
    var tail := x[1..];
    assert (x + y)[..k] == x[..k];
    assert (x + y)[0] == x[0];
    assert (x + y)[1..] == tail + y;
    SplitPastChar(x, sep);
    SplitPastChar(x + y, sep);
    var p := Split(x, sep);
    var s := Split(tail, sep);
    var r := Split(tail + y, sep);
    SplitAppend(tail, y, sep);
    if |s| == 1 {
      SplitJoin(tail, sep);
      assert [x[0]] + tail == x;
      assert p == [x];
    } else {
      var q := Split(s[|s| - 1] + y, sep);
      PrependToFirstPiece([x[0]], s, q);
    }
  }

  /** Sequence bookkeeping for `SplitAppendPastChar`: a prefix glued to the first piece survives the cut. */
  lemma PrependToFirstPiece(c: string, s: seq<string>, q: seq<string>)
    requires |s| > 1
    ensures var r := s[..|s| - 1] + q; var p := [c + s[0]] + s[1..];
      [c + r[0]] + r[1..] == p[..|p| - 1] + q
  {
    var r := s[..|s| - 1] + q;
    assert r[0] == s[0];
    assert r[1..] == s[1..|s| - 1] + q;
  }

  /** `s` repeated `n` times. */
  function Repeat(s: string, n: nat): (r: string)
    ensures |r| == n * |s|
  {
    if n == 0 then "" else Repeat(s, n - 1) + s
  }

  function DigitChar(d: nat): char
    requires d < 10
  {
    "0123456789"[d]
  }

  predicate IsDigits(s: string) {
    forall i :: 0 <= i < |s| ==> '0' <= s[i] <= '9'
  }

  /** The decimal text of a non-negative integer, as a template string renders it. */
  function Decimal(n: nat): (r: string)
    ensures r != "" && IsDigits(r)
  {
    if n < 10 then [DigitChar(n)] else Decimal(n / 10) + [DigitChar(n % 10)]
  }

  /** The value of a string of decimal digits. */
  function DigitsValue(s: string): nat
    requires IsDigits(s)
  {
    if s == "" then 0 else 10 * DigitsValue(s[..|s| - 1]) + (s[|s| - 1] as int - '0' as int)
  }

  /** Reading the rendered digits back gives the number. */
  lemma {:induction false} DecimalRoundTrip(n: nat)
    ensures DigitsValue(Decimal(n)) == n
  {
    if n >= 10 {
      DecimalRoundTrip(n / 10);
      var d := Decimal(n);
      assert d[..|d| - 1] == Decimal(n / 10);
    }
  }
}
