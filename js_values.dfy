/** The dynamically typed values the scraper's field reads produce. A selector read
    returns text, `undefined`, or whatever the converter callback returns (a
    boolean, a number, or text), so the record fields are values of this type. */
module JsValues {
  import opened Text

  /** A JavaScript number obtained from text made of digits and points. */
  datatype JsNumber =
    | Int(n: nat)           // the text had no point: its decimal integer (`""` gives 0)
    | Decimal(text: string) // one point and at least one digit: a decimal fraction, not evaluated here
    | NaN                   // several points, or a point and no digit

  datatype Value = Undefined | Str(s: string) | Bool(b: bool) | Num(n: JsNumber)

  function CountPoints(s: string): nat {
    if s == [] then 0 else (if s[0] == '.' then 1 else 0) + CountPoints(s[1..])
  }

  /** `Number(t)` for a text `t` over `[0-9.]`. */
  function ToNumber(t: string): (r: JsNumber)
    requires AllNumeric(t)
    ensures AllDigits(t) ==> r == Int(DigitValue(t))
    ensures r.Int? ==> AllDigits(t)
    ensures r.Decimal? ==> Contains(t, ".")
  {
    var points := CountPoints(t);
    NoPointsMeansDigits(t);
    if points == 0 then
      Int(DigitValue(t))
    else
      PointsMeansContainsPoint(t);
      if points == 1 && !AllPoints(t) then Decimal(t) else NaN
  }

  predicate AllPoints(s: string) {
    forall i | 0 <= i < |s| :: s[i] == '.'
  }

  lemma {:induction false} NoPointsMeansDigits(t: string)
    requires AllNumeric(t)
    ensures CountPoints(t) == 0 <==> AllDigits(t)
  {
    if t != [] {
      NoPointsMeansDigits(t[1..]);
    }
  }

  lemma {:induction false} PointsMeansContainsPoint(t: string)
    ensures CountPoints(t) > 0 ==> Contains(t, ".")
  {
    if t != [] && CountPoints(t) > 0 {
      if t[0] == '.' {
        assert OccursAt(t, ".", 0);
      } else {
        PointsMeansContainsPoint(t[1..]);
        var i: nat :| i <= |t[1..]| && OccursAt(t[1..], ".", i);
        assert t[1..][i..] == t[i + 1..];
        assert OccursAt(t, ".", i + 1);
      }
    }
  }

  /** JavaScript truthiness, as `if (value)` tests it. */
  predicate Truthy(v: Value) {
    match v
    case Undefined => false
    case Str(s) => s != ""
    case Bool(b) => b
    case Num(Int(n)) => n != 0
    case Num(Decimal(t)) => exists i | 0 <= i < |t| :: '1' <= t[i] <= '9'
    case Num(NaN) => false
  }
}
