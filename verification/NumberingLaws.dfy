/** The count-based invoice sequence: why numbers never collide and leave no gaps. */
module NumberingLaws {
  import opened Prelude
  import opened Calendar
  import opened Decimals
  import opened InvoiceNumbers
  import opened Billing

  // ---- ranks within a month, on keys alone ----------------------------------------------------------

  /** How many of the first `n` keys are the given one. */
  function Rank(keys: seq<string>, key: string, n: nat): nat
    requires n <= |keys|
  {
    if n == 0 then 0 else Rank(keys, key, n - 1) + if keys[n - 1] == key then 1 else 0
  }

  lemma {:induction false} RankPrefix(a: seq<string>, b: seq<string>, key: string, n: nat)
    requires n <= |a| && n <= |b| && forall i :: 0 <= i < n ==> a[i] == b[i]
    ensures Rank(a, key, n) == Rank(b, key, n)
  {
    if n > 0 {
      RankPrefix(a, b, key, n - 1);
    }
  }

  lemma {:induction false} RankMonotone(keys: seq<string>, key: string, i: nat, j: nat)
    requires i <= j <= |keys|
    ensures Rank(keys, key, i) <= Rank(keys, key, j)
    decreases j
  {
    if i < j {
      RankMonotone(keys, key, i, j - 1);
    }
  }

  lemma RankAfter(keys: seq<string>, key: string, i: nat, j: nat)
    requires i < j <= |keys| && keys[i] == key
    ensures Rank(keys, key, i) + 1 <= Rank(keys, key, j)
  {
    RankMonotone(keys, key, i + 1, j);
  }

  /** Two rows never have the same key and the same rank. */
  lemma RanksDiffer(keys: seq<string>, i: nat, j: nat)
    requires i < j <= |keys|
    ensures j < |keys| && keys[i] == keys[j] ==> Rank(keys, keys[i], i) < Rank(keys, keys[j], j)
    ensures Rank(keys, keys[i], i) + 1 <= Rank(keys, keys[i], j)
  {
    RankAfter(keys, keys[i], i, j);
  }

  lemma {:induction false} FindRank(keys: seq<string>, key: string, k: nat, n: nat) returns (r: nat)
    requires n <= |keys| && 1 <= k <= Rank(keys, key, n)
    ensures r < n && keys[r] == key && Rank(keys, key, r) + 1 == k
  {
    if k <= Rank(keys, key, n - 1) {
      r := FindRank(keys, key, k, n - 1);
    } else {
      r := n - 1;
    }
  }

  /** Row `i` holds what `text` makes of its key and of its rank among the rows with that key. */
  ghost predicate RankedAt(numbers: seq<string>, keys: seq<string>, text: (string, nat) -> string, i: nat)
    requires i < |numbers| && i < |keys|
  {
    numbers[i] == text(keys[i], Rank(keys, keys[i], i) + 1)
  }

  ghost predicate Ranked(numbers: seq<string>, keys: seq<string>, text: (string, nat) -> string) {
    |numbers| == |keys| && forall i :: 0 <= i < |numbers| ==> RankedAt(numbers, keys, text, i)
  }

  lemma RankedSnoc(numbers: seq<string>, keys: seq<string>, text: (string, nat) -> string, key: string)
    requires Ranked(numbers, keys, text)
    ensures Ranked(numbers + [text(key, Rank(keys, key, |keys|) + 1)], keys + [key], text)
  {
    var more, wide := numbers + [text(key, Rank(keys, key, |keys|) + 1)], keys + [key];
    forall i | 0 <= i < |more|
      ensures RankedAt(more, wide, text, i)
    {
      RankPrefix(keys, wide, wide[i], i);
      assert i < |numbers| ==> RankedAt(numbers, keys, text, i);
    }
  }

  lemma RankedButLast(numbers: seq<string>, keys: seq<string>, text: (string, nat) -> string)
    requires Ranked(numbers, keys, text) && numbers != []
    ensures Ranked(numbers[..|numbers| - 1], keys[..|numbers| - 1], text)
  {
    var n := |numbers| - 1;
    forall i | 0 <= i < n
      ensures RankedAt(numbers[..n], keys[..n], text, i)
    {
      assert RankedAt(numbers, keys, text, i);
      RankPrefix(keys, keys[..n], keys[i], i);
    }
  }

  function NumberText(key: string, sequence: nat): string {
    InvoiceNumber(key, sequence)
  }

  lemma TextAt(numbers: seq<string>, keys: seq<string>, i: nat)
    requires Ranked(numbers, keys, NumberText) && i < |numbers|
    ensures numbers[i] == InvoiceNumber(keys[i], Rank(keys, keys[i], i) + 1)
  {
    assert RankedAt(numbers, keys, NumberText, i);
  }

  lemma SameTextSameRank(key: string, sequence: nat, key': string, sequence': nat)
    requires AllDigits(key) && AllDigits(key')
    ensures InvoiceNumber(key, sequence) == InvoiceNumber(key', sequence') ==> key == key' && sequence == sequence'
  {
    if InvoiceNumber(key, sequence) == InvoiceNumber(key', sequence') {
      NumberIdentifies(key, sequence, key', sequence');
    }
  }

  lemma TextFree(numbers: seq<string>, keys: seq<string>, key: string, sequence: nat)
    requires Ranked(numbers, keys, NumberText) && AllDigits(key)
    requires forall i :: 0 <= i < |keys| ==> AllDigits(keys[i])
    requires sequence == Rank(keys, key, |keys|) + 1
    ensures InvoiceNumber(key, sequence) !in numbers
  {
    forall i | 0 <= i < |numbers|
      ensures numbers[i] != InvoiceNumber(key, sequence)
    {
      TextAt(numbers, keys, i);
      SameTextSameRank(keys[i], Rank(keys, keys[i], i) + 1, key, sequence);
      RanksDiffer(keys, i, |keys|);
    }
  }

  lemma TextsDiffer(numbers: seq<string>, keys: seq<string>, i: nat, j: nat)
    requires Ranked(numbers, keys, NumberText) && i < j < |numbers|
    requires forall i :: 0 <= i < |keys| ==> AllDigits(keys[i])
    ensures numbers[i] != numbers[j]
  {
    TextAt(numbers, keys, i);
    TextAt(numbers, keys, j);
    RanksDiffer(keys, i, j);
    SameTextSameRank(keys[i], Rank(keys, keys[i], i) + 1, keys[j], Rank(keys, keys[j], j) + 1);
  }

  // ---- the table ------------------------------------------------------------------------------------

  function Numbers(invoices: seq<Invoice>): (numbers: seq<string>)
    ensures |numbers| == |invoices|
    ensures forall i :: 0 <= i < |invoices| ==> numbers[i] == invoices[i].number
  {
    if invoices == [] then [] else Numbers(invoices[..|invoices| - 1]) + [invoices[|invoices| - 1].number]
  }

  function Keys(invoices: seq<Invoice>): (keys: seq<string>)
    ensures |keys| == |invoices|
  {
    if invoices == [] then []
    else Keys(invoices[..|invoices| - 1]) + [MonthKey(invoices[|invoices| - 1].periodStart)]
  }

  lemma {:induction false} KeyAt(invoices: seq<Invoice>, i: nat)
    requires i < |invoices|
    ensures Keys(invoices)[i] == MonthKey(invoices[i].periodStart)
    ensures AllDigits(Keys(invoices)[i])
  {
    MonthKeyDigits(invoices[i].periodStart);
    if i < |invoices| - 1 {
      KeyAt(invoices[..|invoices| - 1], i);
    }
  }

  lemma KeysAreDigits(invoices: seq<Invoice>)
    ensures forall i :: 0 <= i < |invoices| ==> AllDigits(Keys(invoices)[i])
  {
    forall i | 0 <= i < |invoices|
      ensures AllDigits(Keys(invoices)[i])
    {
      KeyAt(invoices, i);
    }
  }

  /** Every invoice carries its month's key and its rank among that month's invoices. */
  ghost predicate Numbered(invoices: seq<Invoice>) {
    Ranked(Numbers(invoices), Keys(invoices), NumberText)
  }

  lemma TableSnoc(invoices: seq<Invoice>, inv: Invoice)
    ensures Keys(invoices + [inv]) == Keys(invoices) + [MonthKey(inv.periodStart)]
    ensures Numbers(invoices + [inv]) == Numbers(invoices) + [inv.number]
  {
  }

  /** In a numbered table the text search counts exactly the month's invoices. */
  lemma {:induction false} PrefixCountsMonth(invoices: seq<Invoice>, key: string)
    requires Numbered(invoices) && AllDigits(key)
    ensures CountPrefix(invoices, Prefix(key)) == Rank(Keys(invoices), key, |invoices|)
  {
    if invoices != [] {
      var n := |invoices| - 1;
      var keys := Keys(invoices);
      assert keys[..n] == Keys(invoices[..n]) && Numbers(invoices)[..n] == Numbers(invoices[..n]);
      RankedButLast(Numbers(invoices), keys, NumberText);
      PrefixCountsMonth(invoices[..n], key);
      RankPrefix(keys, keys[..n], key, n);
      KeyAt(invoices, n);
      TextAt(Numbers(invoices), keys, n);
      PrefixIdentifies(keys[n], Rank(keys, keys[n], n) + 1, key);
    }
  }

  lemma NotListed(invoices: seq<Invoice>, number: string)
    requires number !in Numbers(invoices)
    ensures !NumberTaken(invoices, number)
  {
  }

  /** A number whose rank its month has not reached yet is not in the table. */
  lemma NumberFree(invoices: seq<Invoice>, key: string, sequence: nat)
    requires Numbered(invoices) && AllDigits(key)
    requires sequence == Rank(Keys(invoices), key, |invoices|) + 1
    ensures !NumberTaken(invoices, InvoiceNumber(key, sequence))
  {
    KeysAreDigits(invoices);
    TextFree(Numbers(invoices), Keys(invoices), key, sequence);
    NotListed(invoices, InvoiceNumber(key, sequence));
  }

  /** Generating an invoice never meets a taken number, and keeps the table numbered. */
  lemma GenerateKeepsNumbers(st: State, subId: nat, planId: nat, cycle: BillingCycle, org: nat, start: Time, end: Time)
    requires Numbered(st.invoices)
    ensures Generate(st, subId, planId, cycle, org, start, end).reply == Done
    ensures Numbered(Generate(st, subId, planId, cycle, org, start, end).st.invoices)
  {
    var key := MonthKey(start);
    var keys := Keys(st.invoices);
    MonthKeyDigits(start);
    PrefixCountsMonth(st.invoices, key);
    NumberFree(st.invoices, key, Rank(keys, key, |keys|) + 1);
    TableSnoc(st.invoices, Invoice(NextNumber(st.invoices, start), org, subId, planId, cycle, start, end, Unpaid, None));
    RankedSnoc(Numbers(st.invoices), keys, NumberText, key);
  }

  lemma NumbersDiffer(invoices: seq<Invoice>, i: nat, j: nat)
    requires Numbered(invoices) && i < j < |invoices|
    ensures invoices[i].number != invoices[j].number
  {
    KeysAreDigits(invoices);
    TextsDiffer(Numbers(invoices), Keys(invoices), i, j);
  }

  /** Some invoice of the month carries the sequence `k`. */
  ghost predicate Carries(invoices: seq<Invoice>, key: string, k: nat) {
    exists r :: 0 <= r < |invoices| && MonthKey(invoices[r].periodStart) == key && invoices[r].number == InvoiceNumber(key, k)
  }

  /** A month with n invoices carries exactly the sequences 1 to n. */
  lemma SequencesOfMonth(invoices: seq<Invoice>, key: string, k: nat)
    requires Numbered(invoices)
    ensures Carries(invoices, key, k) <==> 1 <= k <= Rank(Keys(invoices), key, |invoices|)
  {
    var keys := Keys(invoices);
    if r :| 0 <= r < |invoices| && MonthKey(invoices[r].periodStart) == key && invoices[r].number == InvoiceNumber(key, k) {
      KeyAt(invoices, r);
      TextAt(Numbers(invoices), keys, r);
      SameTextSameRank(key, k, keys[r], Rank(keys, keys[r], r) + 1);
      RanksDiffer(keys, r, |keys|);
    }
    if 1 <= k <= Rank(keys, key, |invoices|) {
      var r := FindRank(keys, key, k, |invoices|);
      KeyAt(invoices, r);
      TextAt(Numbers(invoices), keys, r);
    }
  }

  /** A request to bill a period. */
  datatype Bill = Bill(subId: nat, planId: nat, cycle: BillingCycle, org: nat, start: Time, end: Time)

  function GenerateAll(st: State, bills: seq<Bill>): State {
    if bills == [] then st
    else
      var b := bills[|bills| - 1];
      Generate(GenerateAll(st, bills[..|bills| - 1]), b.subId, b.planId, b.cycle, b.org, b.start, b.end).st
  }

  lemma {:induction false} GenerateAllNumbers(st: State, bills: seq<Bill>)
    requires Numbered(st.invoices)
    ensures Numbered(GenerateAll(st, bills).invoices)
    ensures |GenerateAll(st, bills).invoices| == |st.invoices| + |bills|
  {
    if bills != [] {
      var b := bills[|bills| - 1];
      GenerateAllNumbers(st, bills[..|bills| - 1]);
      GenerateKeepsNumbers(GenerateAll(st, bills[..|bills| - 1]), b.subId, b.planId, b.cycle, b.org, b.start, b.end);
    }
  }

  /**
   From an empty table, after any bills in any order of periods: every bill got its invoice, numbers are
   globally distinct, and a month with n invoices has exactly the sequences 1 to n.
   */
  lemma InvoiceNumbering(st: State, bills: seq<Bill>, key: string)
    requires st.invoices == []
    ensures var invoices := GenerateAll(st, bills).invoices;
            && |invoices| == |bills|
            && (forall i, j :: 0 <= i < j < |invoices| ==> invoices[i].number != invoices[j].number)
            && (forall k: nat :: Carries(invoices, key, k) <==> 1 <= k <= Rank(Keys(invoices), key, |invoices|))
  {
    var invoices := GenerateAll(st, bills).invoices;
    GenerateAllNumbers(st, bills);
    forall i, j | 0 <= i < j < |invoices|
      ensures invoices[i].number != invoices[j].number
    {
      NumbersDiffer(invoices, i, j);
    }
    forall k: nat
      ensures Carries(invoices, key, k) <==> 1 <= k <= Rank(Keys(invoices), key, |invoices|)
    {
      SequencesOfMonth(invoices, key, k);
    }
  }
}
