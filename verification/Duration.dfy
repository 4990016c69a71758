// Durations as the configuration writes them: a number of seconds, or one suffixed s, m, h or d.

module Duration {
  import opened Basics
  import opened Texts

  datatype Refusal = NotADuration | ZeroBudget | TooLong

  predicate IsDigit(c: char) { '0' <= c <= '9' }

  /** The number a string of digits writes; nothing when it is empty or holds anything else. */
  function Digits(s: string): Option<nat> {
    if s == "" || !IsDigit(s[|s| - 1]) then None
    else
      var unit: nat := (s[|s| - 1] - '0') as int;
      if |s| == 1 then Some(unit)
      else
        var front := Digits(s[..|s| - 1]);
        if front.None? then None else Some(10 * front.value + unit)
  }

  /** Reading an unsigned number: digits after an optional plus sign, refused when they reach `limit`. */
  function ParseBelow(s: string, limit: int): Option<nat> {
    var n := Digits(if s != "" && s[0] == '+' then s[1..] else s);
    if n.Some? && n.value < limit then n else None
  }

  /** The seconds a suffix stands for. */
  function UnitOf(c: char): Option<nat> {
    if c == 's' || c == 'S' then Some(1)
    else if c == 'm' || c == 'M' then Some(60)
    else if c == 'h' || c == 'H' then Some(3_600)
    else if c == 'd' || c == 'D' then Some(86_400)
    else None
  }

  function ParseDuration(text: string): Result<u64, Refusal> {
    var value := Trim(text);
    var suffix := if value == "" then None else UnitOf(value[|value| - 1]);
    var digits := if suffix.Some? then value[..|value| - 1] else value;
    var multiplier := if suffix.Some? then suffix.value else 1;
    var amount := ParseBelow(Trim(digits), U64);
    if amount.None? then Err(NotADuration)
    else if amount.value == 0 then Err(ZeroBudget)
    else if amount.value * multiplier < U64 then Ok(amount.value * multiplier)
    else Err(TooLong)
  }

  // --- Writing a duration and reading it back --------------------------------------------------

  function Decimal(n: nat): string {
    var unit := '0' + (n % 10) as char;
    if n < 10 then [unit] else Decimal(n / 10) + [unit]
  }

  lemma {:induction false} DigitsOfDecimal(n: nat)
    ensures Digits(Decimal(n)) == Some(n)
    ensures forall i :: 0 <= i < |Decimal(n)| ==> IsDigit(Decimal(n)[i])
  {
    var unit := '0' + (n % 10) as char;
    assert IsDigit(unit) && (unit - '0') as int == n % 10;
    if n >= 10 {
      DigitsOfDecimal(n / 10);
      assert (Decimal(n / 10) + [unit])[..|Decimal(n / 10)|] == Decimal(n / 10);
    }
  }

  lemma TrimNothing(s: string)
    requires s != "" && !IsWhitespace(s[0]) && !IsWhitespace(s[|s| - 1])
    ensures Trim(s) == s
  {
  }

  /** Every number in every unit reads back as that many seconds, and is refused exactly when it is
      zero or does not fit: so every positive 64-bit lifetime can be configured. */
  lemma DurationRoundTrip(n: nat, suffix: string)
    requires n < U64 && (suffix == "" || (|suffix| == 1 && UnitOf(suffix[0]).Some?))
    ensures ParseDuration(Decimal(n) + suffix) ==
      var seconds := n * if suffix == "" then 1 else UnitOf(suffix[0]).value;
      if n == 0 then Err(ZeroBudget) else if seconds < U64 then Ok(seconds) else Err(TooLong)
  {
    hide Trim, Digits, Decimal, UnitOf, IsDigit, IsWhitespace;
    var digits := Decimal(n);
    DecimalShape(n);
    DigitsOfDecimal(n);
    var text := digits + suffix;
    SuffixShape(digits, suffix);
    TrimNothing(text);
    TrimNothing(digits);
    assert ParseBelow(digits, U64) == Some(n);
  }

  lemma DecimalShape(n: nat)
    ensures var s := Decimal(n);
      s != "" && !IsWhitespace(s[0]) && !IsWhitespace(s[|s| - 1]) && s[0] != '+' && UnitOf(s[|s| - 1]).None?
  {
    DigitsOfDecimal(n);
    var s := Decimal(n);
    assert s != "" && IsDigit(s[0]) && IsDigit(s[|s| - 1]);
  }

  lemma SuffixShape(digits: string, suffix: string)
    requires digits != "" && !IsWhitespace(digits[0]) && !IsWhitespace(digits[|digits| - 1])
    requires suffix == "" || (|suffix| == 1 && UnitOf(suffix[0]).Some?)
    ensures var text := digits + suffix;
      && text != "" && !IsWhitespace(text[0]) && !IsWhitespace(text[|text| - 1])
      && (suffix == "" ==> text == digits)
      && (suffix != "" ==> text[|text| - 1] == suffix[0] && text[..|text| - 1] == digits)
  {
  }

  /** A lifetime that wraps the expiry arithmetic can be written in a configuration file. */
  lemma WrappingLifetimeConfigurable()
    ensures ParseDuration(Decimal(U64 - 1)) == Ok(U64 - 1)
  {
    DurationRoundTrip(U64 - 1, "");
    assert Decimal(U64 - 1) + "" == Decimal(U64 - 1);
  }

  /** A bare number counts seconds; the four suffixes, in either case, count seconds, minutes, hours and days. */
  lemma DurationUnits(n: nat)
    requires 0 < n && 86_400 * n < U64
    ensures ParseDuration(Decimal(n)) == Ok(n)
    ensures ParseDuration(Decimal(n) + "s") == ParseDuration(Decimal(n) + "S") == Ok(n)
    ensures ParseDuration(Decimal(n) + "m") == ParseDuration(Decimal(n) + "M") == Ok(60 * n)
    ensures ParseDuration(Decimal(n) + "h") == ParseDuration(Decimal(n) + "H") == Ok(3_600 * n)
    ensures ParseDuration(Decimal(n) + "d") == ParseDuration(Decimal(n) + "D") == Ok(86_400 * n)
  {
    hide ParseDuration, Decimal;
    assert Decimal(n) + "" == Decimal(n);
    DurationRoundTrip(n, "");
    DurationRoundTrip(n, "s");
    DurationRoundTrip(n, "S");
    DurationRoundTrip(n, "m");
    DurationRoundTrip(n, "M");
    DurationRoundTrip(n, "h");
    DurationRoundTrip(n, "H");
    DurationRoundTrip(n, "d");
    DurationRoundTrip(n, "D");
  }
}
