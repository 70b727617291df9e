/** What each conversion of one value means, said without the interpreter: which texts a boolean or an integer is
    read from, what is trimmed and what is not, which JSON stands for which value. */
module ConvertReadings {
  import opened Common
  import opened BrokerState
  import opened Convert
  import opened ConvertRoundTrips
  import opened Text
  import Decimal

  lemma OnePureOp(k: Library, v: Value, op: Op, node: NodeId, s: State)
    requires IsPureOp(op)
    ensures ApplyOps(k, v, [op], node, s) == (s, ApplyPure(k, v, op))
  {
    assert [op][1..] == [];
  }

  // -- what stands between the white space ---------------------------------------------------------

  ghost predicate Blank(space: char -> bool, s: string) {
    forall c :: c in s ==> space(c)
  }

  /** Neither starts nor ends with white space. */
  ghost predicate Bare(space: char -> bool, s: string) {
    s != [] ==> !space(s[0]) && !space(Last(s))
  }

  /** The text is `core` with nothing but white space around it. */
  ghost predicate Holds(space: char -> bool, t: string, core: string) {
    && Bare(space, core)
    && exists before, after :: Blank(space, before) && Blank(space, after) && t == before + core + after
  }

  lemma {:induction false} StartOfBlank(space: char -> bool, before: string, rest: string)
    requires Blank(space, before)
    ensures TrimStart(space, before + rest) == TrimStart(space, rest)
  {
    if before == [] {
      assert before + rest == rest;
    } else {
      assert before[0] in before;
      assert forall c :: c in before[1..] ==> c in before;
      assert (before + rest)[1..] == before[1..] + rest;
      StartOfBlank(space, before[1..], rest);
    }
  }

  lemma {:induction false} EndOfBlank(space: char -> bool, core: string, after: string)
    requires Blank(space, after) && Bare(space, core)
    ensures TrimEnd(space, core + after) == core
  {
    if after == [] {
      assert core + after == core;
    } else {
      assert Last(after) in after;
      assert forall c :: c in Front(after) ==> c in after;
      assert Front(core + after) == core + Front(after);
      EndOfBlank(space, core, Front(after));
    }
  }

  lemma {:induction false} AllBlank(space: char -> bool, s: string)
    requires Blank(space, s)
    ensures Trim(space, s) == []
  {
    StartOfBlank(space, s, []);
    assert s + [] == s;
  }

  /** Every text holds exactly one core, and trimming finds it. */
  lemma CoreIsTrimmed(space: char -> bool, t: string, core: string)
    ensures Holds(space, t, core) <==> core == Trim(space, t)
  {
    if Holds(space, t, core) {
      var before, after :| Blank(space, before) && Blank(space, after) && t == before + core + after;
      assert t == before + (core + after);
      StartOfBlank(space, before, core + after);
      if core == [] {
        assert t == before + after;
        assert Blank(space, t);
        AllBlank(space, t);
      } else {
        EndOfBlank(space, core, after);
      }
    }
    var i, j := TrimmedStretch(space, t);
    assert t == t[..i] + t[i..j] + t[j..];
    assert Blank(space, t[..i]) && Blank(space, t[j..]);
  }

  // -- booleans ------------------------------------------------------------------------------------

  /** `s` is this lower-case word, in capitals or not, letter by letter. */
  ghost predicate Spells(s: string, word: string) {
    && |s| == |word|
    && forall i :: 0 <= i < |s| ==>
         s[i] == word[i] || ('a' <= word[i] <= 'z' && s[i] as int == word[i] as int - 32)
  }

  ghost predicate SaysYes(s: string) {
    Spells(s, "true") || Spells(s, "yes") || Spells(s, "1") || Spells(s, "on")
  }

  ghost predicate SaysNo(s: string) {
    Spells(s, "false") || Spells(s, "no") || Spells(s, "0") || Spells(s, "off")
  }

  lemma SpelledLowers(s: string, word: string)
    requires forall i :: 0 <= i < |word| ==> !('A' <= word[i] <= 'Z')
    ensures LowerAll(s) == word <==> Spells(s, word)
  {
  }

  lemma YesExactly(core: string)
    ensures BoolOfText(LowerAll(core)) == Some(true) <==> SaysYes(core)
  {
    SpelledLowers(core, "true");
    SpelledLowers(core, "yes");
    SpelledLowers(core, "1");
    SpelledLowers(core, "on");
  }

  lemma NoExactly(core: string)
    ensures BoolOfText(LowerAll(core)) == Some(false) <==> SaysNo(core)
  {
    SpelledLowers(core, "false");
    SpelledLowers(core, "no");
    SpelledLowers(core, "0");
    SpelledLowers(core, "off");
  }

  /** `parse-bool` says true of exactly the four words and false of exactly the four others, in any capitals and
      any white space around them, and refuses every other text. */
  lemma ParseBoolExactly(k: Library, t: string, core: string, node: NodeId, s: State)
    requires Holds(k.whitespace, t, core)
    ensures ApplyOps(k, Text(t), [ParseBool], node, s)
         == (s, if SaysYes(core) then Done(Bool(true))
                else if SaysNo(core) then Done(Bool(false))
                else Failed(ConversionFailed))
  {
    OnePureOp(k, Text(t), ParseBool, node, s);
    CoreIsTrimmed(k.whitespace, t, core);
    YesExactly(core);
    NoExactly(core);
  }

  lemma HoldsItself(space: char -> bool, s: string)
    requires Bare(space, s)
    ensures Holds(space, s, s)
  {
    var none: string := [];
    assert Blank(space, none) && s == none + s + none;
  }

  lemma OneDigitInts()
    ensures ShowInt(0) == "0" && ShowInt(1) == "1"
  {
    assert Decimal.Show(0) == ['0'] && Decimal.Show(1) == ['1'];
  }

  lemma SayingInDigits(t: string)
    requires t != [] && (Decimal.IsDigit(t[0]) || t[0] == '-')
    ensures SaysYes(t) <==> t == "1"
    ensures SaysNo(t) <==> t == "0"
  {
  }

  /** Of the eight words only two are written with digits, and only two integers have that text. */
  lemma SayingOfInt(i: Int64)
    ensures SaysYes(ShowInt(i)) <==> i == 1
    ensures SaysNo(ShowInt(i)) <==> i == 0
  {
    OneDigitInts();
    TextOfIntParses(i);
    TextOfIntParses(0);
    TextOfIntParses(1);
    assert ShowInt(i)[0] in ShowInt(i);
    SayingInDigits(ShowInt(i));
  }

  lemma TextOfIntIsBare(space: char -> bool, i: Int64)
    requires forall c :: Decimal.IsDigit(c) || c == '-' ==> !space(c)
    ensures Holds(space, ShowInt(i), ShowInt(i))
  {
    var t := ShowInt(i);
    TextOfIntParses(i);
    assert t[0] in t && Last(t) in t;
    HoldsItself(space, t);
  }

  lemma IntThroughText(k: Library, i: Int64, node: NodeId, s: State)
    requires SoundSpace(k)
    ensures ApplyOps(k, Int(i), [ToText, ParseBool], node, s)
         == (s, if i == 1 then Done(Bool(true)) else if i == 0 then Done(Bool(false)) else Failed(ConversionFailed))
  {
    var t := ShowInt(i);
    TextOfIntIsBare(k.whitespace, i);
    ParseBoolExactly(k, t, t, node, s);
    OnePureOp(k, Text(t), ParseBool, node, s);
    SayingOfInt(i);
    TwoPureOps(k, Int(i), ToText, ParseBool, node, s);
  }

  /** The two ways from an integer to a boolean agree on nought and one; on every other integer the way through
      text fails where `int-to-bool` says true. */
  lemma TwoWaysFromIntToBool(k: Library, i: Int64, node: NodeId, s: State)
    requires SoundSpace(k)
    ensures ApplyOps(k, Int(i), [IntToBool], node, s) == (s, Done(Bool(i != 0)))
    ensures ApplyOps(k, Int(i), [ToText, ParseBool], node, s)
         == (if i == 0 || i == 1 then ApplyOps(k, Int(i), [IntToBool], node, s) else (s, Failed(ConversionFailed)))
  {
    IntThroughText(k, i, node, s);
    OnePureOp(k, Int(i), IntToBool, node, s);
  }

  /** Likewise from a boolean to text: through the integer it is one of two words that read back the same. */
  lemma TwoWaysFromBoolToText(k: Library, b: bool, node: NodeId, s: State)
    ensures ApplyOps(k, Bool(b), [ToText], node, s) == (s, Done(Text(if b then "true" else "false")))
    ensures ApplyOps(k, Bool(b), [BoolToInt, ToText], node, s) == (s, Done(Text(if b then "1" else "0")))
  {
    OnePureOp(k, Bool(b), ToText, node, s);
    TwoPureOps(k, Bool(b), BoolToInt, ToText, node, s);
  }

  // -- integers --------------------------------------------------------------------------------------

  ghost predicate AllZeros(s: string) {
    forall c :: c in s ==> c == '0'
  }

  lemma {:induction false} ZerosAreZero(s: string)
    requires AllZeros(s)
    ensures Decimal.AllDigits(s) && Decimal.Value(s) == 0
  {
    if s != [] {
      var front := s[..|s| - 1];
      assert forall c :: c in front ==> c in s;
      assert s[|s| - 1] in s;
      ZerosAreZero(front);
    }
  }

  lemma {:induction false} ValueOfZeros(s: string, digits: string)
    requires AllZeros(s) && Decimal.AllDigits(digits)
    ensures Decimal.AllDigits(s + digits) && Decimal.Value(s + digits) == Decimal.Value(digits)
  {
    ZerosAreZero(s);
    if digits == [] {
      assert s + digits == s;
    } else {
      assert (s + digits)[..|s + digits| - 1] == s + digits[..|digits| - 1];
      ValueOfZeros(s, digits[..|digits| - 1]);
    }
  }

  /** Every run of digits is zeros and the numeral of its value. */
  lemma {:induction false} ZerosAndNumeral(digits: string) returns (zeros: string)
    requires digits != [] && Decimal.AllDigits(digits)
    ensures AllZeros(zeros) && digits == zeros + Decimal.Show(Decimal.Value(digits))
  {
    var front, last := digits[..|digits| - 1], digits[|digits| - 1];
    var d := Decimal.DigitValue(last);
    assert last == Decimal.DigitOf(d);
    assert Decimal.Value(digits) == Decimal.Value(front) * 10 + d;
    if front == [] {
      zeros := [];
    } else {
      zeros := ZerosAndNumeral(front);
      if Decimal.Value(front) == 0 {
        zeros := front;
        assert Decimal.Show(0) == ['0'];
      } else {
        assert Decimal.Show(Decimal.Value(digits)) == Decimal.Show(Decimal.Value(front)) + [last];
      }
    }
  }

  function Magnitude(i: int): nat {
    if i < 0 then -i else i
  }

  /** A sign that suits the integer: `-0` and `+0` are nought. */
  ghost predicate Suits(sign: string, i: int) {
    (sign == ['-'] && i <= 0) || ((sign == ['+'] || sign == []) && i >= 0)
  }

  /** `s` writes the integer `i`: a sign that suits it or none, zeros, and its numeral. */
  ghost predicate Writes(s: string, i: int) {
    exists sign, zeros :: Suits(sign, i) && AllZeros(zeros) && s == sign + zeros + Decimal.Show(Magnitude(i))
  }

  lemma PlainIsParsed(digits: string)
    requires digits != [] && Decimal.AllDigits(digits) && Decimal.Value(digits) < TWO_63
    ensures ParseInt64(digits) == Some(Decimal.Value(digits))
  {
    assert digits[0] in digits;
  }

  lemma SignedIsParsed(sign: char, digits: string, i: Int64)
    requires digits != [] && Decimal.AllDigits(digits) && (sign == '-' || sign == '+')
    requires i == if sign == '-' then 0 - Decimal.Value(digits) else Decimal.Value(digits)
    ensures ParseInt64([sign] + digits) == Some(i)
  {
    var s := [sign] + digits;
    assert s[0] == sign && s[1..] == digits;
  }

  lemma SuitedIsParsed(sign: string, digits: string, i: Int64)
    requires digits != [] && Decimal.AllDigits(digits) && Decimal.Value(digits) == Magnitude(i) && Suits(sign, i)
    ensures ParseInt64(sign + digits) == Some(i)
  {
    if sign == [] {
      assert sign + digits == digits;
      PlainIsParsed(digits);
    } else {
      SignedIsParsed(sign[0], digits, i);
    }
  }

  lemma DigitsOf(zeros: string, i: int)
    requires AllZeros(zeros)
    ensures var digits := zeros + Decimal.Show(Magnitude(i));
            digits != [] && Decimal.AllDigits(digits) && Decimal.Value(digits) == Magnitude(i)
  {
    Decimal.ShowThenRead(Magnitude(i));
    ValueOfZeros(zeros, Decimal.Show(Magnitude(i)));
  }

  lemma WrittenIsParsed(s: string, i: Int64)
    requires Writes(s, i)
    ensures ParseInt64(s) == Some(i)
  {
    var sign, zeros :| Suits(sign, i) && AllZeros(zeros) && s == sign + zeros + Decimal.Show(Magnitude(i));
    DigitsOf(zeros, i);
    var digits := zeros + Decimal.Show(Magnitude(i));
    assert s == sign + digits;
    SuitedIsParsed(sign, digits, i);
  }

  /** What the digits behind the sign are worth. */
  lemma ParsedDigits(s: string) returns (sign: string, digits: string)
    requires ParseInt64(s).Some?
    ensures s == sign + digits && digits != [] && Decimal.AllDigits(digits)
    ensures Suits(sign, ParseInt64(s).value) && Decimal.Value(digits) == Magnitude(ParseInt64(s).value)
  {
    var signed := s[0] == '-' || s[0] == '+';
    sign, digits := if signed then [s[0]] else [], if signed then s[1..] else s;
  }

  lemma SignZerosNumeral(sign: string, digits: string, i: int)
    requires digits != [] && Decimal.AllDigits(digits) && Decimal.Value(digits) == Magnitude(i) && Suits(sign, i)
    ensures Writes(sign + digits, i)
  {
    var zeros := ZerosAndNumeral(digits);
    assert sign + digits == sign + zeros + Decimal.Show(Magnitude(i));
  }

  lemma ParsedIsWritten(s: string)
    requires ParseInt64(s).Some?
    ensures Writes(s, ParseInt64(s).value)
  {
    var sign, digits := ParsedDigits(s);
    SignZerosNumeral(sign, digits, ParseInt64(s).value);
  }

  /** `parse-int` gives an integer exactly if it is an i64 and the text writes it: with a sign, with leading zeros,
      in white space, or plainly. It refuses every other text. */
  lemma ParseIntExactly(k: Library, t: string, core: string, node: NodeId, s: State)
    requires Holds(k.whitespace, t, core)
    ensures forall i: Int64 :: ApplyOps(k, Text(t), [ParseInt], node, s) == (s, Done(Int(i))) <==> Writes(core, i)
    ensures (forall i: Int64 :: !Writes(core, i)) ==>
              ApplyOps(k, Text(t), [ParseInt], node, s) == (s, Failed(ConversionFailed))
  {
    OnePureOp(k, Text(t), ParseInt, node, s);
    CoreIsTrimmed(k.whitespace, t, core);
    if ParseInt64(core).Some? {
      ParsedIsWritten(core);
    }
    forall i: Int64 | Writes(core, i) ensures ParseInt64(core) == Some(i) {
      WrittenIsParsed(core, i);
    }
  }

  // -- floats, JSON and what has no conversion ---------------------------------------------------------

  /** Around a float white space is dropped before the library reads it; JSON is read as it stands. */
  lemma LibraryReads(k: Library, t: string, core: string, node: NodeId, s: State)
    requires Holds(k.whitespace, t, core)
    ensures ApplyOps(k, Text(t), [ParseFloat], node, s)
         == (s, match k.parseFloat(core)
                case Some(f) => Done(Float(f))
                case None => Failed(ConversionFailed))
    ensures ApplyOps(k, Text(t), [ParseJson], node, s)
         == (s, match k.parseJson(t)
                case Some(j) => Done(JsonValue(j))
                case None => Failed(ConversionFailed))
    ensures ApplyOps(k, Text(t), [ToText], node, s) == (s, Done(Text(t)))
  {
    OnePureOp(k, Text(t), ParseFloat, node, s);
    OnePureOp(k, Text(t), ParseJson, node, s);
    OnePureOp(k, Text(t), ToText, node, s);
    CoreIsTrimmed(k.whitespace, t, core);
  }

  /** If the library reads back the float it wrote, bare of white space, so does the chain. */
  lemma FloatSurvivesText(k: Library, f: Double, node: NodeId, s: State)
    requires k.parseFloat(k.showFloat(f)) == Some(f) && Bare(k.whitespace, k.showFloat(f))
    ensures ApplyOps(k, Float(f), [ToText, ParseFloat], node, s) == (s, Done(Float(f)))
  {
    var t := k.showFloat(f);
    TwoPureOps(k, Float(f), ToText, ParseFloat, node, s);
    HoldsItself(k.whitespace, t);
    CoreIsTrimmed(k.whitespace, t, t);
  }

  lemma JsonSurvivesText(k: Library, j: Json, node: NodeId, s: State)
    requires k.showJson(j).Some? && k.parseJson(k.showJson(j).value) == Some(j)
    ensures ApplyOps(k, JsonValue(j), [StringifyJson, ParseJson], node, s) == (s, Done(JsonValue(j)))
  {
    TwoPureOps(k, JsonValue(j), StringifyJson, ParseJson, node, s);
  }

  /** The JSON and the value are the same scalar. */
  ghost predicate SameScalar(v: Value, j: Json) {
    || (v.Bool? && j.JsonBool? && v.b == j.b)
    || (v.Int? && j.JsonInt? && v.i == j.i)
    || (v.Float? && v.f.Finite? && j.JsonFloat? && v.f.r == j.r)
    || (v.Text? && j.JsonString? && v.t == j.s)
  }

  /** Encoding finds the JSON that is the same scalar, and `null` for a float that is no number; every other value
      fails. */
  lemma EncodesExactly(k: Library, v: Value, node: NodeId, s: State)
    requires !v.Absent?
    ensures forall j :: ApplyOps(k, v, [EncodeJson], node, s) == (s, Done(JsonValue(j)))
                        <==> SameScalar(v, j) || (j.JsonNull? && v.Float? && !v.f.Finite?)
    ensures (forall j :: !SameScalar(v, j)) && !v.Float? ==>
              ApplyOps(k, v, [EncodeJson], node, s) == (s, Failed(ConversionFailed))
  {
    OnePureOp(k, v, EncodeJson, node, s);
    var o := ApplyPure(k, v, EncodeJson);
    if o.Done? {
      assert SameScalar(v, o.value.j) || v.Float?;
    }
  }

  /** Decoding finds the value that is the same scalar; an integer beyond the range becomes the nearest float, and
      `null`, lists and objects fail. */
  lemma DecodesExactly(k: Library, j: Json, node: NodeId, s: State)
    ensures forall v :: ApplyOps(k, JsonValue(j), [DecodeJson], node, s) == (s, Done(v))
                        <==> || SameScalar(v, j)
                             || (j.JsonInt? && !(-TWO_63 <= j.i < TWO_63) && v == Float(Finite(k.nearestFloat(j.i))))
    ensures j.JsonNull? || j.JsonArray? || j.JsonObject? ==>
              ApplyOps(k, JsonValue(j), [DecodeJson], node, s) == (s, Failed(ConversionFailed))
  {
    OnePureOp(k, JsonValue(j), DecodeJson, node, s);
  }

  /** The kinds of value an operation is for. */
  ghost predicate IsFor(op: Op, v: Value) {
    match op
    case ToText => v.Int? || v.Float? || v.Bool? || v.Text?
    case IntToFloat => v.Int?
    case IntToBool => v.Int?
    case BoolToInt => v.Bool?
    case Round => v.Float?
    case ParseInt => v.Text?
    case ParseFloat => v.Text?
    case ParseBool => v.Text?
    case ParseJson => v.Text?
    case StringifyJson => v.JsonValue?
    case DecodeJson => v.JsonValue?
    case EncodeJson => v.Bool? || v.Int? || v.Float? || v.Text?
    case Map => v.List?
    case ReadBytes => v.HandleValue?
    case DecodeImage => v.HandleValue?
    case WriteTemp => v.HandleValue?
    case UnwrapOption => !v.Absent?
    case Pending(_) => false
    case Unknown(_) => false
  }

  /** A chain that starts with an operation not meant for the value it is given fails there, with the broker
      untouched, whatever follows: except that absence passes through, and what has not shipped says so. */
  lemma WrongKindIsRefused(k: Library, v: Value, op: Op, rest: seq<Op>, node: NodeId, s: State)
    requires !IsFor(op, v) && (v.Absent? ==> op.UnwrapOption? || op.Map?)
    ensures ApplyOps(k, v, [op] + rest, node, s)
         == (s, Failed(if op.Pending? then ConversionUnavailable else ConversionFailed))
  {
    assert ([op] + rest)[0] == op;
  }

  /** The operations that only relabel or check: a temporary file is the same handle called a file, and unwrapping
      gives back what is there. */
  lemma RelabelsExactly(k: Library, h: Handle, v: Value, node: NodeId, s: State)
    ensures ApplyOps(k, HandleValue(h), [WriteTemp], node, s) == (s, Done(HandleValue(Handle(h.id, OfFile))))
    ensures !v.Absent? ==> ApplyOps(k, v, [UnwrapOption], node, s) == (s, Done(v))
    ensures ApplyOps(k, Absent, [UnwrapOption], node, s) == (s, Failed(ConversionFailed))
  {
    OnePureOp(k, HandleValue(h), WriteTemp, node, s);
    OnePureOp(k, v, UnwrapOption, node, s);
    OnePureOp(k, Absent, UnwrapOption, node, s);
  }
}
