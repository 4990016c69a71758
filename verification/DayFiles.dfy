// The names of the files an audit trail keeps its days in.

module DayFiles {
  import opened Basics
  import opened Texts
  import opened Civil
  import opened Duration

  const PREFIX := "audit-"
  const SUFFIX := ".jsonl"
  const U32: int := 0x1_0000_0000

  function Zeros(k: int): string { if k <= 0 then "" else "0" + Zeros(k - 1) }

  /** A number in decimal, padded with zeroes to a width. */
  function Padded(n: nat, width: nat): string { Zeros(width - |Decimal(n)|) + Decimal(n) }

  /** A sign counts towards the width. */
  function YearText(year: int): string { if year >= 0 then Padded(year, 4) else "-" + Padded(-year, 3) }

  function ToIso(date: Date): string
    requires IsDate(date)
  {
    YearText(date.year) + ['-'] + Padded(date.month, 2) + ['-'] + Padded(date.day, 2)
  }

  /** A minus sign never reaches the numbers: the text is split on it. */
  function FromIso(text: string): Option<Date> {
    var parts := Split(text, '-');
    if |parts| < 3 then None
    else
      var year, month, day := ParseBelow(parts[0], I64_MAX + 1), ParseBelow(parts[1], U32), ParseBelow(parts[2], U32);
      if year.None? || month.None? || day.None? || |parts| > 3 then None
      else if !(1 <= month.value <= 12) || !(1 <= day.value <= 31) then None
      else Some(Date(year.value, month.value, day.value))
  }

  function FileName(day: int): string {
    DateIsDate(day);
    PREFIX + ToIso(DateOf(day)) + SUFFIX
  }

  function DayOfFile(name: string): Option<int> {
    if PREFIX <= name && |name| >= |PREFIX| + |SUFFIX| && name[|name| - |SUFFIX|..] == SUFFIX then
      var date := FromIso(name[|PREFIX|..|name| - |SUFFIX|]);
      if date.Some? then Some(DaysOf(date.value)) else None
    else None
  }

  // --- A day's file is found again -------------------------------------------------------------

  lemma {:induction false} ZerosShape(k: int)
    ensures forall i :: 0 <= i < |Zeros(k)| ==> Zeros(k)[i] == '0'
    ensures k > 0 ==> Zeros(k) != ""
    ensures k > 0 ==> Zeros(k) == Zeros(k - 1) + "0"
  {
    if k > 0 { ZerosShape(k - 1); }
  }

  lemma {:induction false} DigitsOfZeros(k: int)
    requires k > 0
    ensures Digits(Zeros(k)) == Some(0)
  {
    ZerosShape(k);
    var s := Zeros(k);
    assert s[..|s| - 1] == Zeros(k - 1);
    if k > 1 { DigitsOfZeros(k - 1); }
  }

  lemma {:induction false} DigitsPadded(k: int, s: string)
    requires Digits(s).Some?
    ensures Digits(Zeros(k) + s) == Digits(s)
  {
    var padded := Zeros(k) + s;
    if k <= 0 {
      assert padded == s;
    } else {
      assert padded[..|padded| - 1] == Zeros(k) + s[..|s| - 1];
      assert padded[|padded| - 1] == s[|s| - 1];
      if |s| == 1 {
        assert Zeros(k) + s[..0] == Zeros(k);
        DigitsOfZeros(k);
        ZerosShape(k);
      } else {
        DigitsPadded(k, s[..|s| - 1]);
      }
    }
  }

  lemma PaddedReads(n: nat, width: nat, limit: int)
    ensures ParseBelow(Padded(n, width), limit) == if n < limit then Some(n) else None
    ensures '-' !in Padded(n, width)
  {
    hide Decimal, Digits;
    var s := Decimal(n);
    var k := width - |s|;
    DigitsOfDecimal(n);
    DigitsPadded(k, s);
    ZerosShape(k);
    var padded := Zeros(k) + s;
    forall i | 0 <= i < |padded| ensures IsDigit(padded[i]) {
      if i < |Zeros(k)| { assert padded[i] == Zeros(k)[i]; } else { assert padded[i] == s[i - |Zeros(k)|]; }
    }
  }

  lemma DigitsOfNothing()
    ensures ParseBelow("", I64_MAX + 1) == None
  {
  }

  /** A date reads back from its text exactly when its year is one the reader can hold. */
  lemma IsoRoundTrip(date: Date)
    requires IsDate(date)
    ensures FromIso(ToIso(date)) == if 0 <= date.year <= I64_MAX then Some(date) else None
  {
    hide Padded, ParseBelow, Split;
    var m, d := Padded(date.month, 2), Padded(date.day, 2);
    PaddedReads(date.month, 2, U32);
    PaddedReads(date.day, 2, U32);
    if date.year >= 0 {
      var y := Padded(date.year, 4);
      PaddedReads(date.year, 4, I64_MAX + 1);
      JoinThree(y, m, d, '-');
      SplitJoin([y, m, d], '-');
    } else {
      var y := Padded(-date.year, 3);
      PaddedReads(-date.year, 3, I64_MAX + 1);
      var rest := y + ['-'] + m + ['-'] + d;
      assert ToIso(date) == "" + ['-'] + rest;
      SplitFirst("", '-', rest);
      DigitsOfNothing();
    }
  }

  /** A day's file is recognised as that day's, in every year the reader can hold: so days and their
      files correspond one to one. */
  lemma FileRoundTrip(day: int)
    ensures DayOfFile(FileName(day)) == if 0 <= DateOf(day).year <= I64_MAX then Some(day) else None
  {
    hide DateOf, DaysOf, ToIso, FromIso;
    DateIsDate(day);
    var iso := ToIso(DateOf(day));
    var name := PREFIX + iso + SUFFIX;
    assert name[|PREFIX|..|name| - |SUFFIX|] == iso && name[|name| - |SUFFIX|..] == SUFFIX;
    IsoRoundTrip(DateOf(day));
    DateRoundTrip(day);
  }

  /** The second day of 1970. */
  lemma SecondDay()
    ensures FileName(1) == "audit-1970-01-02.jsonl"
  {
    hide DateOf, Padded;
    Epoch();
    NextDayFollows(0);
    assert DateOf(0 + 1) == Date(1970, 1, 2);
    PaddedYear();
    PaddedDigit(1);
    PaddedDigit(2);
    assert ToIso(Date(1970, 1, 2)) == "1970" + ['-'] + "01" + ['-'] + "02";
    assert "1970" + ['-'] + "01" + ['-'] + "02" == "1970-01-02";
  }

  lemma PaddedYear()
    ensures Padded(1970, 4) == "1970"
  {
    assert Decimal(1) == "1" && Decimal(19) == "19" && Decimal(197) == "197" && Decimal(1970) == "1970";
    assert "" + "1970" == "1970";
  }

  lemma PaddedDigit(n: nat)
    requires n < 10
    ensures Padded(n, 2) == ['0', '0' + n as char]
  {
    assert Zeros(1) == "0" + Zeros(0);
  }
}
