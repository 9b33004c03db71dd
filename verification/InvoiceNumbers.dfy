/** Invoice numbers as strings: `BRL-<year><month>-<sequence>`, and why their text identifies them. */
module InvoiceNumbers {
  import opened Calendar
  import opened Decimals

  // ---- month keys and numbers ---------------------------------------------------------------------

  function MonthKey(t: Time): string {
    var month := MonthOf(DayOf(t));
    Digits(YearOf(month)) + PadStart(Digits(month % 12 + 1), 2)
  }

  lemma MonthKeyDigits(t: Time)
    ensures AllDigits(MonthKey(t))
  {
    var month := MonthOf(DayOf(t));
    DigitsOnly(YearOf(month));
    DigitsOnly(month % 12 + 1);
    PaddedDigits(Digits(month % 12 + 1), 2);
  }

  function Prefix(key: string): string {
    "BRL-" + key + "-"
  }

  function InvoiceNumber(key: string, sequence: nat): string {
    Prefix(key) + PadStart(Digits(sequence), 4)
  }

  /** `LIKE '<prefix>%'`, for a prefix without wildcards. */
  predicate StartsWith(s: string, prefix: string) {
    |prefix| <= |s| && s[..|prefix|] == prefix
  }

  /** A key reads as the year times a hundred plus the month, so it determines both. */
  lemma MonthKeyValue(t: Time)
    ensures var month := MonthOf(DayOf(t));
            AllDigits(MonthKey(t)) && Value(MonthKey(t)) == YearOf(month) * 100 + month % 12 + 1
  {
    KeyTextValue(YearOf(MonthOf(DayOf(t))), MonthOf(DayOf(t)) % 12 + 1);
  }

  lemma KeyTextValue(year: nat, mm: nat)
    requires mm < 100
    ensures AllDigits(Digits(year) + PadStart(Digits(mm), 2))
    ensures Value(Digits(year) + PadStart(Digits(mm), 2)) == year * 100 + mm
  {
    ValueOfDigits(mm);
    assert |Digits(mm)| <= 2;
    PaddedDigits(Digits(mm), 2);
    ValueOfDigits(year);
    ValueOfPadded(Digits(mm), 2);
    ValueOfTwoMore(Digits(year), PadStart(Digits(mm), 2));
  }

  /** The year and month whose first days enclose an instant. */
  ghost predicate InMonth(t: Time, year: nat, month: nat) {
    && year > 0 && 1 <= month <= 12
    && CivilStart(year, month) * MS_PER_DAY <= t
    && t < (if month == 12 then CivilStart(year + 1, 1) else CivilStart(year, month + 1)) * MS_PER_DAY
  }

  /** A number is `BRL-`, the month key, `-` and the sequence in at least four digits. */
  lemma NumberReads(key: string, sequence: nat)
    ensures var digits := Digits(sequence);
            InvoiceNumber(key, sequence) == "BRL-" + key + "-" + (Zeros(if |digits| < 4 then 4 - |digits| else 0) + digits)
  {
    PadsWithZeros(Digits(sequence), 4);
  }

  /** A month key is the year and the month in two digits. */
  lemma MonthKeyReads(t: Time, year: nat, month: nat)
    requires year >= EPOCH_YEAR && InMonth(t, year, month)
    ensures MonthKey(t) == Digits(year) + ((if month < 10 then "0" else "") + Digits(month))
  {
    MonthReads(t, year, month);
    MonthNumber(year, month);
    TwoDigits(month);
  }

  lemma TwoDigits(month: nat)
    requires 1 <= month <= 12
    ensures PadStart(Digits(month), 2) == (if month < 10 then "0" else "") + Digits(month)
  {
    assert |Digits(month)| == if month < 10 then 1 else 2;
    PadsWithZeros(Digits(month), 2);
    assert Zeros(1) == "0" && Zeros(0) == "";
  }

  lemma MonthReads(t: Time, year: nat, month: nat)
    requires year >= EPOCH_YEAR && InMonth(t, year, month)
    ensures MonthOf(DayOf(t)) == 12 * (year - EPOCH_YEAR) + (month - 1)
  {
    var k := 12 * (year - EPOCH_YEAR) + (month - 1);
    MonthNumber(year, month);
    MonthSpan(k, year, month);
    DaysEnclosed(t, MonthStart(k), MonthStart(k + 1));
    MonthIsUnique(DayOf(t), k);
  }

  lemma MonthSpan(k: nat, year: nat, month: nat)
    requires year >= EPOCH_YEAR && 1 <= month <= 12 && YearOf(k) == year && k % 12 == month - 1
    ensures MonthStart(k) == CivilStart(year, month)
    ensures MonthStart(k + 1) == if month == 12 then CivilStart(year + 1, 1) else CivilStart(year, month + 1)
  {
    MonthStartIsCivil(k);
    MonthStartIsCivil(k + 1);
    NextMonth(k);
  }

  lemma DaysEnclosed(t: Time, first: Day, next: Day)
    requires first * MS_PER_DAY <= t < next * MS_PER_DAY
    ensures first <= DayOf(t) < next
  {
    DayBounds(t);
  }

  lemma MonthNumber(year: nat, month: nat)
    requires year >= EPOCH_YEAR && 1 <= month <= 12
    ensures var k := 12 * (year - EPOCH_YEAR) + (month - 1); YearOf(k) == year && k % 12 == month - 1
  {
  }

  lemma DayBounds(t: Time)
    ensures DayOf(t) * MS_PER_DAY <= t < (DayOf(t) + 1) * MS_PER_DAY
  {
  }

  lemma YearAndMonth(m: nat, m': nat)
    requires YearOf(m) * 100 + m % 12 == YearOf(m') * 100 + m' % 12
    ensures m == m'
  {
  }

  /** Two instants have the same month key exactly when they lie in the same month. */
  lemma MonthKeyIdentifies(t: Time, u: Time)
    ensures MonthKey(t) == MonthKey(u) <==> MonthOf(DayOf(t)) == MonthOf(DayOf(u))
  {
    if MonthKey(t) == MonthKey(u) {
      MonthKeyValue(t);
      MonthKeyValue(u);
      YearAndMonth(MonthOf(DayOf(t)), MonthOf(DayOf(u)));
    }
  }

  /** The prefix search of one month finds exactly the numbers of that month. */
  lemma PrefixIdentifies(key: string, sequence: nat, other: string)
    requires AllDigits(key) && AllDigits(other)
    ensures StartsWith(InvoiceNumber(key, sequence), Prefix(other)) <==> key == other
  {
    var s := InvoiceNumber(key, sequence);
    var p := Prefix(other);
    assert s == "BRL-" + key + "-" + PadStart(Digits(sequence), 4);
    assert s[4 + |key|] == '-';
    assert forall i :: 0 <= i < |key| ==> s[4 + i] == key[i];
    assert p[4 + |other|] == '-';
    assert forall i :: 0 <= i < |other| ==> p[4 + i] == other[i];
    if StartsWith(s, p) {
      assert forall i :: 0 <= i < |p| ==> p[i] == s[..|p|][i];
      assert |key| == |other|;
      assert forall i :: 0 <= i < |key| ==> key[i] == s[4 + i] == p[4 + i] == other[i];
    }
    assert key == other ==> s[..|p|] == p;
  }

  /** A number determines its month key and its sequence. */
  lemma NumberIdentifies(key: string, sequence: nat, key': string, sequence': nat)
    requires AllDigits(key) && AllDigits(key')
    requires InvoiceNumber(key, sequence) == InvoiceNumber(key', sequence')
    ensures key == key' && sequence == sequence'
  {
    var s := InvoiceNumber(key, sequence);
    assert s[..|Prefix(key')|] == Prefix(key');
    PrefixIdentifies(key, sequence, key');
    assert s[|Prefix(key)|..] == PadStart(Digits(sequence), 4);
    assert s[|Prefix(key)|..] == PadStart(Digits(sequence'), 4);
    ValueOfDigits(sequence);
    ValueOfDigits(sequence');
    ValueOfPadded(Digits(sequence), 4);
    ValueOfPadded(Digits(sequence'), 4);
  }
}
