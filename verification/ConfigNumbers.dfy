/** The configuration's number fields, with their 32-bit and 64-bit arithmetic written out. */
module ConfigNumbers {
  import opened Bytes
  import opened Digits

  const MAX_VALUE_LEN: nat := 256

  datatype Status =
    | Syntax | Range | Text | UnknownKey | Duplicate | LineTooLong | TooManyLines | TooLarge | Required

  datatype Result<+T> = Ok(value: T) | Err(status: Status) {
    predicate IsFailure() {
      Err?
    }

    function PropagateFailure<U>(): Result<U>
      requires Err?
    {
      Err(status)
    }

    function Extract(): T
      requires Ok?
    {
      value
    }
  }

  // -- 32 bits

  /** `max - digit` on 32 bits: below nine it can wrap. */
  function Headroom(max: nat, digit: nat): nat
    requires max < U32 && digit < 10
  {
    (max + U32 - digit) % U32
  }

  /** The digit loop, as the code runs it; the value too lives on 32 bits. */
  function DigitLoop(s: string, max: nat): (r: Result<nat>)
    requires max < U32
    ensures r.Ok? ==> r.value < U32
  {
    if s == "" then Ok(0)
    else
      var n := |s| - 1;
      var value :- DigitLoop(s[..n], max);
      if !IsDigit(s[n]) then Err(Syntax)
      else if value > Headroom(max, DigitOf(s[n])) / 10 then Err(Range)
      else Ok((value * 10 + DigitOf(s[n])) % U32)
  }

  function ParseU32(s: string, min: nat, max: nat): (r: Result<nat>)
    requires max < U32
    ensures r.Ok? ==> min <= r.value <= max
  {
    if min > max then Err(Range)
    else if |s| > MAX_VALUE_LEN then Err(Text)
    else if s == "" then Err(Syntax)
    else
      var value :- DigitLoop(s, max);
      if value < min || value > max then Err(Range) else Ok(value)
  }

  lemma {:induction false} LoopStuck(s: string, max: nat, k: nat)
    requires max < U32 && k <= |s| && DigitLoop(s[..k], max).Err?
    ensures DigitLoop(s, max) == DigitLoop(s[..k], max)
  {
    if k == |s| {
      assert s[..k] == s;
    } else {
      assert s[..|s| - 1][..k] == s[..k];
      LoopStuck(s[..|s| - 1], max, k);
    }
  }

  method ReadU32(s: string, min: nat, max: nat) returns (r: Result<nat>)
    requires max < U32
    ensures r == ParseU32(s, min, max)
  {
    if min > max {
      return Err(Range);
    }
    if |s| > MAX_VALUE_LEN {
      return Err(Text);
    }
    if s == "" {
      return Err(Syntax);
    }
    var value := 0;
    for i := 0 to |s|
      invariant DigitLoop(s[..i], max) == Ok(value)
    {
      assert s[..i + 1][..i] == s[..i];
      if !IsDigit(s[i]) {
        LoopStuck(s, max, i + 1);
        return Err(Syntax);
      }
      var digit := DigitOf(s[i]);
      if value > Headroom(max, digit) / 10 {
        LoopStuck(s, max, i + 1);
        return Err(Range);
      }
      value := (value * 10 + digit) % U32;
    }
    assert s[..|s|] == s;
    if value < min || value > max {
      return Err(Range);
    }
    return Ok(value);
  }

  /** What a bounded number field is meant to accept, and as what. */
  function Meant(s: string, min: nat, max: nat): Option<nat> {
    if 0 < |s| <= MAX_VALUE_LEN && AllDigits(s) && min <= Value(s) <= max then Some(Value(s)) else None
  }

  predicate ExactOn(s: string, min: nat, max: nat)
    requires max < U32
  {
    match Meant(s, min, max)
    case Some(v) => ParseU32(s, min, max) == Ok(v)
    case None => ParseU32(s, min, max).Err?
  }

  /** Below nine, every digit but the first must exceed the bound, or the loop stops. */
  predicate Climbing(value: nat, max: nat) {
    value < 10 || (value % 10 > max && Climbing(value / 10, max))
  }

  lemma NextDigit(value: nat, digit: nat, max: nat)
    requires value < U32 && digit < 10 && 2 <= max < U32 && value <= Headroom(max, digit) / 10
    requires max < 9 ==> Climbing(value, max)
    ensures value * 10 + digit < U32
    ensures max >= 9 ==> value * 10 + digit <= max
    ensures max < 9 ==> Climbing(value * 10 + digit, max)
  {
    if max >= 9 || digit <= max {
      assert Headroom(max, digit) == max - digit;
    } else {
      assert Headroom(max, digit) == max + U32 - digit;
      assert Climbing(429496729, max) ==> Climbing(42949672, max) && 2 > max;
    }
  }

  lemma LoopStep(s: string, max: nat)
    requires max < U32 && s != "" && DigitLoop(s, max).Ok?
    ensures var n := |s| - 1;
            var before := DigitLoop(s[..n], max);
            && before.Ok? && IsDigit(s[n]) && before.value <= Headroom(max, DigitOf(s[n])) / 10
            && DigitLoop(s, max).value == (before.value * 10 + DigitOf(s[n])) % U32
  {
  }

  lemma DigitsGrow(s: string)
    requires s != "" && AllDigits(s[..|s| - 1]) && IsDigit(s[|s| - 1])
    ensures AllDigits(s) && Value(s) == Value(s[..|s| - 1]) * 10 + DigitOf(s[|s| - 1])
  {
    var n := |s| - 1;
    forall i | 0 <= i < |s| ensures IsDigit(s[i]) {
      if i < n {
        assert s[..n][i] == s[i];
      }
    }
  }

  lemma NoWrap(x: nat)
    ensures x < U32 ==> x % U32 == x
  {
  }

  lemma LoopGoesOn(p: string, c: char, value: nat, max: nat)
    requires max < U32 && IsDigit(c) && DigitLoop(p, max) == Ok(value)
    requires value <= Headroom(max, DigitOf(c)) / 10
    ensures DigitLoop(p + [c], max) == Ok((value * 10 + DigitOf(c)) % U32)
  {
    hide Headroom, DigitOf;
    assert (p + [c])[..|p|] == p;
  }

  /** With a bound of at least two, the loop computes the number it reads, without wrapping. */
  lemma {:induction false} LoopIsValue(s: string, max: nat)
    requires 2 <= max < U32 && DigitLoop(s, max).Ok?
    ensures AllDigits(s) && DigitLoop(s, max).value == Value(s)
    ensures max < 9 ==> Climbing(Value(s), max)
  {
    if s != "" {
      hide DigitLoop, Value, Climbing, Headroom, DigitOf;
      var n := |s| - 1;
      LoopStep(s, max);
      LoopIsValue(s[..n], max);
      var before, d := DigitLoop(s[..n], max).value, DigitOf(s[n]);
      NextDigit(before, d, max);
      NoWrap(before * 10 + d);
      DigitsGrow(s);
    }
  }

  lemma {:induction false} SmallValuesPass(s: string, max: nat)
    requires max < U32 && AllDigits(s) && Value(s) <= max
    ensures DigitLoop(s, max) == Ok(Value(s))
  {
    if s != "" {
      var n := |s| - 1;
      SmallValuesPass(s[..n], max);
      var d := DigitOf(s[n]);
      assert Value(s) == Value(s[..n]) * 10 + d;
      assert Headroom(max, d) == max - d;
    }
  }

  lemma ExactFromTwo(s: string, min: nat, max: nat)
    requires 2 <= max < U32
    ensures ExactOn(s, min, max)
  {
    if Meant(s, min, max).Some? {
      SmallValuesPass(s, max);
    } else if ParseU32(s, min, max).Ok? {
      LoopIsValue(s, max);
    }
  }

  /** The text of 2^32, which wraps to zero one digit at a time. */
  function TwoTo32(): string {
    "4294967296"
  }

  function OneMoreThan32(): string {
    "4294967297"
  }

  /** The loop reads this text as a number without refusing it. */
  predicate Reads(p: string, value: nat, max: nat)
    requires max < 2
  {
    AllDigits(p) && Value(p) == value && DigitLoop(p, max) == Ok(value % U32)
  }

  lemma OneMore(p: string, c: char, value: nat, next: nat, max: nat)
    requires max < 2 && IsDigit(c) && 2 <= DigitOf(c) && value <= 429496728 && Reads(p, value, max)
    requires next == value * 10 + DigitOf(c)
    ensures Reads(p + [c], next, max)
  {
    assert Headroom(max, DigitOf(c)) == U32 + max - DigitOf(c);
    NoWrap(value);
    LoopGoesOn(p, c, value, max);
    assert (p + [c])[..|p|] == p;
    DigitsGrow(p + [c]);
    hide DigitLoop, Value, Headroom, DigitOf;
  }

  lemma TwoTo32IsAccepted(max: nat)
    requires max < 2
    ensures ParseU32(TwoTo32(), 0, max) == Ok(0) && AllDigits(TwoTo32()) && Value(TwoTo32()) == U32
    ensures max == 1 ==> ParseU32(OneMoreThan32(), 0, 1) == Ok(1)
  {
    assert Reads("", 0, max);
    assert DigitOf('2') == 2 && DigitOf('4') == 4 && DigitOf('6') == 6 && DigitOf('7') == 7 && DigitOf('9') == 9;
    hide Reads, DigitOf;
    var a := [] + ['4'];
    OneMore("", '4', 0, 4, max);
    OneMore(a, '2', 4, 42, max);
    OneMore(a + ['2'], '9', 42, 429, max);
    OneMore(a + ['2'] + ['9'], '4', 429, 4294, max);
    var b := a + ['2'] + ['9'] + ['4'];
    OneMore(b, '9', 4294, 42949, max);
    OneMore(b + ['9'], '6', 42949, 429496, max);
    OneMore(b + ['9'] + ['6'], '7', 429496, 4294967, max);
    var c := b + ['9'] + ['6'] + ['7'];
    OneMore(c, '2', 4294967, 42949672, max);
    OneMore(c + ['2'], '9', 42949672, 429496729, max);
    LastDigitWraps(c + ['2'] + ['9'], max);
    assert c + ['2'] + ['9'] + ['6'] == TwoTo32() && c + ['2'] + ['9'] + ['7'] == OneMoreThan32();
  }

  lemma LastDigitWraps(p: string, max: nat)
    requires max < 2 && Reads(p, 429496729, max) && |p| < 256
    ensures var s := p + ['6']; ParseU32(s, 0, max) == Ok(0) && AllDigits(s) && Value(s) == U32
    ensures var s := p + ['7']; max == 1 ==> ParseU32(s, 0, 1) == Ok(1) && AllDigits(s) && Value(s) == U32 + 1
  {
    assert (p + ['6'])[..|p|] == p && (p + ['7'])[..|p|] == p;
    assert DigitOf('6') == 6 && Headroom(max, 6) == U32 + max - 6;
    assert DigitOf('7') == 7 && Headroom(max, 7) == U32 + max - 7;
  }

  /**
   A bounded 32-bit field reads every text as the number it says, or refuses it, exactly
   when its upper bound is at least two; the yes-or-no fields of the file, whose bound is
   one, take 4294967296 for zero.
   */
  lemma ExactIffTwo(max: nat)
    requires max < U32
    ensures (forall s, min :: ExactOn(s, min, max)) <==> max >= 2
  {
    if max >= 2 {
      forall s, min ensures ExactOn(s, min, max) {
        ExactFromTwo(s, min, max);
      }
    } else {
      TwoTo32IsAccepted(max);
      assert !ExactOn(TwoTo32(), 0, max);
    }
  }

  lemma {:induction false} BelowTwoTo32IsValue(s: string, max: nat)
    requires max < U32 && DigitLoop(s, max).Ok?
    ensures AllDigits(s) && (Value(s) < U32 ==> DigitLoop(s, max).value == Value(s))
  {
    if s != "" {
      hide DigitLoop, Value, Headroom, DigitOf;
      LoopStep(s, max);
      BelowTwoTo32IsValue(s[..|s| - 1], max);
      DigitsGrow(s);
      NoWrap(Value(s));
    }
  }

  /**
   Whatever the bound, only a text whose number is 2^32 or more can be misread: every other
   text is read as the number it says when that is in range, and refused when it is not.
   */
  lemma ExactBelowTwoTo32(s: string, min: nat, max: nat)
    requires max < U32 && (AllDigits(s) ==> Value(s) < U32)
    ensures ExactOn(s, min, max)
  {
    if Meant(s, min, max).Some? {
      SmallValuesPass(s, max);
    } else if ParseU32(s, min, max).Ok? {
      BelowTwoTo32IsValue(s, max);
    }
  }

  // -- 64 bits

  function DigitLoop64(s: string): (r: Result<nat>)
    ensures r.Ok? ==> r.value < U64
  {
    if s == "" then Ok(0)
    else
      var n := |s| - 1;
      var value :- DigitLoop64(s[..n]);
      if !IsDigit(s[n]) then Err(Syntax)
      else if value > (U64 - 1 - DigitOf(s[n])) / 10 then Err(Range)
      else Ok(value * 10 + DigitOf(s[n]))
  }

  function ParseU64In(s: string, min: nat, max: nat): (r: Result<nat>)
    ensures r.Ok? ==> min <= r.value <= max
  {
    if min > max then Err(Range)
    else if |s| > MAX_VALUE_LEN then Err(Text)
    else if s == "" then Err(Syntax)
    else
      var value :- DigitLoop64(s);
      if value < min || value > max then Err(Range) else Ok(value)
  }

  lemma {:induction false} Loop64IsValue(s: string)
    ensures DigitLoop64(s).Ok? <==> AllDigits(s) && Value(s) < U64
    ensures DigitLoop64(s).Ok? ==> DigitLoop64(s).value == Value(s)
  {
    if s != "" {
      var n := |s| - 1;
      Loop64IsValue(s[..n]);
      if IsDigit(s[n]) && AllDigits(s[..n]) {
        DigitsGrow(s);
      }
    }
  }

  /** The 64-bit form measures its headroom from the type's maximum, and is exact for every bound. */
  lemma Exact64(s: string, min: nat, max: nat)
    requires max < U64
    ensures match Meant(s, min, max)
            case Some(v) => ParseU64In(s, min, max) == Ok(v)
            case None => ParseU64In(s, min, max).Err?
  {
    Loop64IsValue(s);
  }
}
