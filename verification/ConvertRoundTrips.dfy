/** Which pairs of conversions give back what went in. */
module ConvertRoundTrips {
  import opened Common
  import opened BrokerState
  import opened Convert
  import opened Text
  import Decimal

  /** No digit, sign or letter of `true` and `false` is white space. */
  ghost predicate SoundSpace(k: Library) {
    forall c :: Decimal.IsDigit(c) || c == '-' || 'a' <= c <= 'z' ==> !k.whitespace(c)
  }

  lemma TrimKeeps(space: char -> bool, s: string)
    requires s != [] ==> !space(s[0]) && !space(Last(s))
    ensures Trim(space, s) == s
  {
  }

  /** Every i64, its text, and back: the extreme values included. */
  lemma TextOfIntParses(i: Int64)
    ensures ParseInt64(ShowInt(i)) == Some(i)
    ensures ShowInt(i) != [] && (forall c :: c in ShowInt(i) ==> Decimal.IsDigit(c) || c == '-')
  {
    var n: int := i;
    var magnitude: nat := if n < 0 then -n else n;
    Decimal.ShowThenRead(magnitude);
    var digits := Decimal.Show(magnitude);
    if i < 0 {
      assert ShowInt(i)[1..] == digits;
    } else {
      assert ShowInt(i)[0] in digits;
    }
  }

  lemma IntSurvivesText(k: Library, i: Int64, node: NodeId, s: State)
    requires SoundSpace(k)
    ensures ApplyOps(k, Int(i), [ToText, ParseInt], node, s) == (s, Done(Int(i)))
  {
    TextOfIntParses(i);
    var t := ShowInt(i);
    assert t[0] in t && Last(t) in t;
    TrimKeeps(k.whitespace, t);
    TwoPureOps(k, Int(i), ToText, ParseInt, node, s);
  }

  lemma TwoPureOps(k: Library, v: Value, a: Op, b: Op, node: NodeId, s: State)
    requires IsPureOp(a) && IsPureOp(b)
    ensures ApplyOps(k, v, [a, b], node, s) ==
              (s, var first := ApplyPure(k, v, a);
                  if first.Done? then ApplyPure(k, first.value, b) else first)
  {
    assert [a, b][1..] == [b] && [b][1..] == [];
    var first := ApplyPure(k, v, a);
    if first.Done? {
      var second := ApplyPure(k, first.value, b);
      assert ApplyOps(k, first.value, [b], node, s) == (s, second);
    }
  }

  lemma BoolSurvivesText(k: Library, b: bool, node: NodeId, s: State)
    requires SoundSpace(k)
    ensures ApplyOps(k, Bool(b), [ToText, ParseBool], node, s) == (s, Done(Bool(b)))
  {
    var t := if b then "true" else "false";
    TrimKeeps(k.whitespace, t);
    LowerCaseStays(t);
    TwoPureOps(k, Bool(b), ToText, ParseBool, node, s);
  }

  /** `NearestInteger` is the nearest integer, and of two equally near the one further from zero. */
  lemma NearestIsNearest(r: real)
    ensures var n := NearestInteger(r);
            && n as real - 0.5 <= r <= n as real + 0.5
            && (r >= 0.0 ==> r < n as real + 0.5 && n >= 0) && (r < 0.0 ==> r > n as real - 0.5 && n <= 0)
  {
    if r >= 0.0 {
      var f := (r + 0.5).Floor;
      assert f as real <= r + 0.5 < f as real + 1.0;
    } else {
      var f := (-r + 0.5).Floor;
      assert f as real <= -r + 0.5 < f as real + 1.0;
      assert (-f) as real == -(f as real);
    }
  }

  lemma NearestOfInteger(i: int)
    ensures NearestInteger(i as real) == i
  {
    NearestIsNearest(i as real);
    var n := NearestInteger(i as real);
    assert n as real - i as real == (n - i) as real;
  }

  /** An integer becomes a float exactly when it is at most 2^53 either way, and then it is that very
      number and `round` gives it back. */
  lemma IntSurvivesFloat(k: Library, i: Int64, node: NodeId, s: State)
    ensures ApplyPure(k, Int(i), IntToFloat) ==
              if -TWO_53 <= i <= TWO_53 then Done(Float(Finite(i as real))) else Failed(ConversionFailed)
    ensures ApplyOps(k, Int(i), [IntToFloat, Round], node, s) ==
              (s, if -TWO_53 <= i <= TWO_53 then Done(Int(i)) else Failed(ConversionFailed))
  {
    NearestOfInteger(i);
    TwoPureOps(k, Int(i), IntToFloat, Round, node, s);
  }

  /** Rounding succeeds on exactly the finite numbers whose nearest integer is an i64 or the one integer just
      above the range; it yields that nearest integer, and the largest i64 for what lies above. Infinities and
      what is no number are refused. */
  lemma RoundsExactly(k: Library, f: Double)
    ensures ApplyPure(k, Float(f), Round).Done?
            <==> f.Finite? && -(TWO_63 as real) - 0.5 < f.r < TWO_63 as real + 0.5
    ensures var o := ApplyPure(k, Float(f), Round);
            o.Done? ==> o.value == Int(if f.r < TWO_63 as real - 0.5 then NearestInteger(f.r) else TWO_63 - 1)
  {
    if f.Finite? {
      NearestIsNearest(f.r);
      NearestWithin(f.r);
    }
  }

  /** Where the nearest integer lies, told from the number. */
  lemma NearestWithin(r: real)
    ensures NearestInteger(r) >= -TWO_63 <==> r > -(TWO_63 as real) - 0.5
    ensures NearestInteger(r) <= TWO_63 <==> r < TWO_63 as real + 0.5
    ensures NearestInteger(r) < TWO_63 <==> r < TWO_63 as real - 0.5
  {
  }

  /** Writing a value as JSON and reading it back is the identity on exactly the scalars other than
      the floats that are no number: those become `null`, which reads as nothing. */
  lemma JsonRoundTripExactly(k: Library, v: Value, node: NodeId, s: State)
    ensures ApplyOps(k, v, [EncodeJson, DecodeJson], node, s) == (s, Done(v)) <==>
              (v.Bool? || v.Int? || v.Text? || v.Absent? || (v.Float? && v.f.Finite?))
    ensures ApplyOps(k, v, [EncodeJson, DecodeJson], node, s) == (s, Done(v)) ||
            ApplyOps(k, v, [EncodeJson, DecodeJson], node, s) == (s, Failed(ConversionFailed))
  {
    TwoPureOps(k, v, EncodeJson, DecodeJson, node, s);
  }
}
