/** The string operations of JavaScript that the scraper's converters use:
    `includes`, `indexOf`, `replace` with a string pattern (first occurrence
    only), the digit-and-point filter `replace(/[^0-9.]/g, "")`, and the
    decimal value of the digit-only strings that filter can produce (`Number`
    itself is in `JsValues`). */
module Text {
  import opened Wrappers

  /** `p` occurs in `s` starting at index `i`. */
  predicate OccursAt(s: string, p: string, i: nat) {
    i <= |s| && p <= s[i..]
  }

  /** `s.includes(p)`. */
  predicate Contains(s: string, p: string) {
    exists i: nat | i <= |s| :: OccursAt(s, p, i)
  }

  /** `s.indexOf(p)`, with -1 written as None: the first index at which `p` occurs. */
  function IndexOf(s: string, p: string): (r: Option<nat>)
    ensures r.Some? ==> OccursAt(s, p, r.value)
    ensures r.Some? ==> forall j: nat | j < r.value :: !OccursAt(s, p, j)
    ensures r.None? ==> forall j: nat | j <= |s| :: !OccursAt(s, p, j)
    decreases |s|
  {
    if p <= s then Some(0)
    else if s == [] then None
    else
      var rest := IndexOf(s[1..], p);
      assert forall j: nat | j < |s| :: OccursAt(s, p, j + 1) == OccursAt(s[1..], p, j) by {
        forall j: nat | j < |s| ensures s[j + 1..] == s[1..][j..] { }
      }
      assert forall j: nat | 0 < j <= |s| :: OccursAt(s, p, j) == OccursAt(s[1..], p, j - 1);
      if rest.None? then None else Some(rest.value + 1)
  }

  lemma IndexOfFindsContained(s: string, p: string)
    ensures IndexOf(s, p).Some? <==> Contains(s, p)
  {
    if IndexOf(s, p).Some? {
      assert OccursAt(s, p, IndexOf(s, p).value);
    }
  }

  /** `s.replace(p, "")`: JavaScript replaces only the first occurrence of a string pattern. */
  function RemoveFirst(s: string, p: string): (r: string)
    ensures !Contains(s, p) ==> r == s
    ensures Contains(s, p) ==>
      |r| == |s| - |p| &&
      exists i: nat | OccursAt(s, p, i) ::
        (forall j: nat | j < i :: !OccursAt(s, p, j)) && r == s[..i] + s[i + |p|..]
  {
    IndexOfFindsContained(s, p);
    match IndexOf(s, p)
    case None => s
    case Some(i) => s[..i] + s[i + |p|..]
  }

  /** Removing the first occurrence undoes prepending the pattern. */
  lemma RemoveFirstUndoesPrepend(p: string, s: string)
    ensures RemoveFirst(p + s, p) == s
  {
    assert OccursAt(p + s, p, 0);
    var r := RemoveFirst(p + s, p);
    var i: nat :| OccursAt(p + s, p, i) && (forall j: nat | j < i :: !OccursAt(p + s, p, j)) && r == (p + s)[..i] + (p + s)[i + |p|..];
    assert i == 0;
    assert (p + s)[|p|..] == s;
  }

  /** For a non-empty pattern, the text is left unchanged exactly when the pattern does not occur. */
  lemma RemoveFirstChangesIffContains(s: string, p: string)
    requires p != []
    ensures RemoveFirst(s, p) == s <==> !Contains(s, p)
  {
  }

  /** A text contains whatever is written in its middle. */
  lemma InfixIsContained(x: string, p: string, y: string)
    ensures Contains(x + p + y, p)
  {
    assert (x + p + y)[|x|..][..|p|] == p;
    assert OccursAt(x + p + y, p, |x|);
  }

  /** A text that contains `q` contains everything `q` contains. */
  lemma ContainsTransitive(s: string, q: string, p: string)
    requires Contains(s, q) && Contains(q, p)
    ensures Contains(s, p)
  {
    var i: nat :| i <= |s| && OccursAt(s, q, i);
    var k: nat :| k <= |q| && OccursAt(q, p, k);
    assert s[i..][..|q|] == q;
    assert s[i + k..][..|p|] == q[k..][..|p|];
    assert OccursAt(s, p, i + k);
  }

  predicate IsDigit(c: char) {
    '0' <= c <= '9'
  }

  /** The characters the price filter keeps: `[0-9.]`. */
  predicate IsNumericChar(c: char) {
    IsDigit(c) || c == '.'
  }

  predicate AllDigits(s: string) {
    forall i | 0 <= i < |s| :: IsDigit(s[i])
  }

  predicate AllNumeric(s: string) {
    forall i | 0 <= i < |s| :: IsNumericChar(s[i])
  }

  /** `s.replace(/[^0-9.]/g, "")`: the digits and points of `s`, in order. */
  function KeepNumeric(s: string): (r: string)
    ensures AllNumeric(r)
    ensures |r| <= |s|
  {
    if s == [] then []
    else (if IsNumericChar(s[0]) then [s[0]] else []) + KeepNumeric(s[1..])
  }

  /** The filter distributes over concatenation; with the one-character case of
      its definition this pins it down: it keeps a character exactly when it is
      a digit or a point, and keeps the order. */
  lemma {:induction false} KeepNumericAppend(a: string, b: string)
    ensures KeepNumeric(a + b) == KeepNumeric(a) + KeepNumeric(b)
  {
    if a == [] {
      assert a + b == b;
    } else {
      var head := if IsNumericChar(a[0]) then [a[0]] else [];
      assert (a + b)[0] == a[0] && (a + b)[1..] == a[1..] + b;
      assert KeepNumeric(a + b) == head + KeepNumeric(a[1..] + b);
      KeepNumericAppend(a[1..], b);
      assert KeepNumeric(a) == head + KeepNumeric(a[1..]);
    }
  }

  /** Each digit and point keeps its number of occurrences; every other character is gone. */
  lemma {:induction false} KeepNumericCounts(s: string, c: char)
    ensures multiset(KeepNumeric(s))[c] == if IsNumericChar(c) then multiset(s)[c] else 0
  {
    if s != [] {
      KeepNumericCounts(s[1..], c);
      assert s == [s[0]] + s[1..];
    }
  }

  /** A text of digits and points passes the filter unchanged. */
  lemma {:induction false} KeepNumericFixesNumeric(s: string)
    requires AllNumeric(s)
    ensures KeepNumeric(s) == s
  {
    if s != [] {
      KeepNumericFixesNumeric(s[1..]);
    }
  }

  /** Filtering twice is filtering once. */
  lemma KeepNumericIdempotent(s: string)
    ensures KeepNumeric(KeepNumeric(s)) == KeepNumeric(s)
  {
    KeepNumericFixesNumeric(KeepNumeric(s));
  }

  function DigitOf(c: char): nat
    requires IsDigit(c)
  {
    c as int - '0' as int
  }

  function DigitChar(d: nat): char
    requires d < 10
  {
    ('0' as int + d) as char
  }

  /** The decimal integer a digit-only string denotes; `""` denotes 0, as `Number("")` does. */
  function DigitValue(s: string): nat
    requires AllDigits(s)
  {
    if s == [] then 0 else 10 * DigitValue(s[..|s| - 1]) + DigitOf(s[|s| - 1])
  }

  /** The decimal numeral of `n`, without leading zeros. */
  function DecimalString(n: nat): (r: string)
    ensures AllDigits(r) && |r| >= 1
    ensures n < 10 <==> |r| == 1
  {
    if n < 10 then [DigitChar(n)] else DecimalString(n / 10) + [DigitChar(n % 10)]
  }

  /** A digit-only string denotes the integer it spells: reading back a decimal numeral gives its number. */
  lemma {:induction false} DigitValueOfDecimalString(n: nat)
    ensures DigitValue(DecimalString(n)) == n
  {
    if n >= 10 {
      DigitValueOfDecimalString(n / 10);
      var s := DecimalString(n);
      assert s[..|s| - 1] == DecimalString(n / 10);
    }
  }

  /** Leading zeros do not change the value. */
  lemma {:induction false} DigitValueLeadingZero(s: string)
    requires AllDigits(s)
    ensures AllDigits("0" + s) && DigitValue("0" + s) == DigitValue(s)
  {
    if s != [] {
      var t := "0" + s;
      assert t[..|t| - 1] == "0" + s[..|s| - 1];
      DigitValueLeadingZero(s[..|s| - 1]);
    }
  }
}
