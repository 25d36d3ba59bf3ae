/**
 * The JavaScript string built-ins the ledger, the server and the client rely on:
 * `String.prototype.trim`, the `filter(Boolean)` idiom on trimmed pieces, number-to-text
 * conversion of non-negative integers, `repeat`/`startsWith` for the proof-of-work prefix,
 * and the ASCII part of `toLowerCase` together with `includes`.
 */
module JsText {

  /** The code points `trim` removes: ECMAScript WhiteSpace and LineTerminator (sections 12.2
      and 12.3 of ECMA-262). The Zs category is U+0020, U+00A0, U+1680, U+2000 to U+200A,
      U+202F, U+205F and U+3000. */
  predicate IsSpace(c: char) {
    c == '\t' || c == '\U{B}' || c == '\U{C}' || c == ' ' || c == '\U{A0}' || c == '\U{FEFF}'
    || c == '\U{1680}' || ('\U{2000}' <= c <= '\U{200A}') || c == '\U{202F}' || c == '\U{205F}'
    || c == '\U{3000}' || c == '\n' || c == '\r' || c == '\U{2028}' || c == '\U{2029}'
  }

  predicate AllSpace(s: string) {
    forall i :: 0 <= i < |s| ==> IsSpace(s[i])
  }

  /** Neither end of `s` is whitespace. */
  predicate IsTrimmed(s: string) {
    s == [] || (!IsSpace(s[0]) && !IsSpace(s[|s| - 1]))
  }

  /** The first position at or after `i` that does not hold whitespace (`|s|` if none). */
  function SkipSpace(s: string, i: nat): (r: nat)
    requires i <= |s|
    ensures i <= r <= |s|
    ensures forall k :: i <= k < r ==> IsSpace(s[k])
    ensures r < |s| ==> !IsSpace(s[r])
    decreases |s| - i
  {
    if i < |s| && IsSpace(s[i]) then SkipSpace(s, i + 1) else i
  }

  /** The position just past the last character before `j` that is not whitespace, looking no
      further back than `lo` (`lo` if there is none). */
  function BackSpace(s: string, lo: nat, j: nat): (r: nat)
    requires lo <= j <= |s|
    ensures lo <= r <= j
    ensures forall k :: r <= k < j ==> IsSpace(s[k])
    ensures r > lo ==> !IsSpace(s[r - 1])
  {
    if j > lo && IsSpace(s[j - 1]) then BackSpace(s, lo, j - 1) else j
  }

  /** `String.prototype.trim`: no whitespace left at either end; empty exactly for blank text;
      text already without whitespace at its ends comes back unchanged. */
  function Trim(s: string): (r: string)
    ensures IsTrimmed(r)
    ensures |r| <= |s|
    ensures r == [] <==> AllSpace(s)
    ensures IsTrimmed(s) ==> r == s
  {
    var a := SkipSpace(s, 0);
    var b := BackSpace(s, a, |s|);
    assert a < b ==> s[a..b][0] == s[a] && s[a..b][b - a - 1] == s[b - 1];
    assert IsTrimmed(s) && s != [] ==> a == 0 && b == |s|;
    assert s[0..|s|] == s;
    s[a..b]
  }

  /** What `trim` removes is whitespace: the input is a run of whitespace, the result, then
      another run of whitespace. */
  lemma TrimIsSlice(s: string)
    ensures exists i, j :: 0 <= i <= j <= |s| && Trim(s) == s[i..j] && AllSpace(s[..i]) && AllSpace(s[j..])
  {
    var a := SkipSpace(s, 0);
    var b := BackSpace(s, a, |s|);
    assert Trim(s) == s[a..b];
    assert AllSpace(s[..a]);
    assert AllSpace(s[b..]);
  }

  /** The trimmed piece, kept when it is non-empty (`filter(Boolean)` on one string). */
  function KeepNonEmpty(t: string): seq<string> {
    if t == [] then [] else [t]
  }

  /** `pieces.map(p => p.trim()).filter(Boolean)`: every piece trimmed, the empty ones dropped. */
  function Tidy(pieces: seq<string>): (r: seq<string>)
    ensures |r| <= |pieces|
    ensures forall k :: 0 <= k < |r| ==> r[k] != [] && IsTrimmed(r[k])
  {
    if pieces == [] then [] else KeepNonEmpty(Trim(pieces[0])) + Tidy(pieces[1..])
  }

  /** One piece becomes its trim, or nothing when it is blank; with `TidyAppend` this fixes
      `Tidy` on every list. */
  lemma TidyOne(p: string)
    ensures Tidy([p]) == if AllSpace(p) then [] else [Trim(p)]
  {
    assert [p][1..] == [];
  }

  /** Tidying keeps the order of the pieces: it works piece by piece across a concatenation. */
  lemma {:induction false} TidyAppend(a: seq<string>, b: seq<string>)
    ensures Tidy(a + b) == Tidy(a) + Tidy(b)
  {
    if a == [] {
      assert a + b == b;
    } else {
      assert (a + b)[1..] == a[1..] + b;
      TidyAppend(a[1..], b);
    }
  }

  /** Pieces that are already non-empty and trimmed come through unchanged. */
  lemma {:induction false} TidyKeepsCleanPieces(pieces: seq<string>)
    requires forall k :: 0 <= k < |pieces| ==> pieces[k] != [] && IsTrimmed(pieces[k])
    ensures Tidy(pieces) == pieces
  {
    if pieces != [] {
      TidyKeepsCleanPieces(pieces[1..]);
    }
  }

  /** Tidying a second time changes nothing. */
  lemma TidyIdempotent(pieces: seq<string>)
    ensures Tidy(Tidy(pieces)) == Tidy(pieces)
  {
    TidyKeepsCleanPieces(Tidy(pieces));
  }

  function Digit(d: nat): char
    requires d < 10
  {
    "0123456789"[d]
  }

  /** The decimal text JavaScript gives a non-negative integer (`${n}`, `String(n)`). */
  function Dec(n: nat): (r: string)
    ensures |r| >= 1
    ensures forall i :: 0 <= i < |r| ==> '0' <= r[i] <= '9'
    ensures |r| > 1 ==> r[0] != '0'
  {
    if n < 10 then [Digit(n)] else Dec(n / 10) + [Digit(n % 10)]
  }

  /** The number a string of decimal digits denotes. */
  function DecValue(s: string): nat
    requires forall i :: 0 <= i < |s| ==> '0' <= s[i] <= '9'
  {
    if s == [] then 0 else DecValue(s[..|s| - 1]) * 10 + (s[|s| - 1] as int - '0' as int)
  }

  /** Reading back the decimal text gives the number: the text names the index unambiguously. */
  lemma {:induction false} DecRoundTrip(n: nat)
    ensures DecValue(Dec(n)) == n
  {
    var r := Dec(n);
    if n < 10 {
      DigitValue(n);
      assert r[..0] == [];
    } else {
      DecRoundTrip(n / 10);
      DigitValue(n % 10);
      assert r[..|r| - 1] == Dec(n / 10);
      assert r[|r| - 1] == Digit(n % 10);
    }
  }

  lemma DigitValue(d: nat)
    requires d < 10
    ensures Digit(d) as int - '0' as int == d
  {
  }

  /** Different numbers have different decimal texts. */
  lemma DecInjective(m: nat, n: nat)
    requires Dec(m) == Dec(n)
    ensures m == n
  {
    DecRoundTrip(m);
    DecRoundTrip(n);
  }

  /** `${i}` for any integer. */
  function IntText(i: int): string {
    if i < 0 then "-" + Dec(-i) else Dec(i)
  }

  /** `"0".repeat(n)`. */
  function Zeros(n: nat): (r: string)
    ensures |r| == n && forall i :: 0 <= i < n ==> r[i] == '0'
  {
    seq(n, _ => '0')
  }

  /** `s.startsWith(prefix)`. */
  predicate StartsWith(s: string, prefix: string) {
    |prefix| <= |s| && s[..|prefix|] == prefix
  }

  /** `toLowerCase` on one character, for the ASCII letters only. */
  function LowerChar(c: char): char {
    if 'A' <= c <= 'Z' then (c as int - 'A' as int + 'a' as int) as char else c
  }

  function Lower(s: string): (r: string)
    ensures |r| == |s| && forall i :: 0 <= i < |s| ==> r[i] == LowerChar(s[i])
  {
    seq(|s|, i requires 0 <= i < |s| => LowerChar(s[i]))
  }

  /** `needle` occurs in `haystack` starting at position `i`. */
  predicate OccursAt(haystack: string, needle: string, i: nat) {
    i + |needle| <= |haystack| && haystack[i..i + |needle|] == needle
  }

  /** `haystack.includes(needle)`. */
  predicate Includes(haystack: string, needle: string): (r: bool)
    ensures needle == [] ==> r
    ensures r ==> |needle| <= |haystack|
    ensures StartsWith(haystack, needle) ==> r
  {
    assert OccursAt(haystack, needle, 0) <== StartsWith(haystack, needle);
    assert needle == [] ==> OccursAt(haystack, needle, 0);
    exists i: nat | i <= |haystack| :: OccursAt(haystack, needle, i)
  }
}
