/** WBS codes: reading the last part of a code as a number, and sorting rows by it. */
module WbsOrder {
  import opened Decimals

  // ---- codes --------------------------------------------------------------------------------------

  /** White space and line ends, as `parseInt` skips them (ECMA-262, `StrWhiteSpaceChar`). */
  predicate IsSpace(c: char) {
    || c == ' ' || c == '\t' || c == '\n' || c == '\r' || c == '\U{000B}' || c == '\U{000C}'
    || c == '\U{00A0}' || c == '\U{1680}' || '\U{2000}' <= c <= '\U{200A}' || c == '\U{2028}' || c == '\U{2029}'
    || c == '\U{202F}' || c == '\U{205F}' || c == '\U{3000}' || c == '\U{FEFF}'
  }

  /** The digits a text begins with, read as a number after `acc`. */
  function LeadingNumber(s: string, acc: nat): nat {
    if s == [] || !IsDigit(s[0]) then acc
    else LeadingNumber(s[1..], acc * 10 + (s[0] as int - '0' as int))
  }

  /** `parseInt(s, 10) || 0`. */
  function ParseInt(s: string): int {
    if s == [] then 0
    else if IsSpace(s[0]) then ParseInt(s[1..])
    else if s[0] == '-' then (var n: int := LeadingNumber(s[1..], 0); -n)
    else if s[0] == '+' then LeadingNumber(s[1..], 0)
    else LeadingNumber(s, 0)
  }

  /** What follows the last dot. */
  function LastPart(s: string): string {
    if s == [] then []
    else if s[|s| - 1] == '.' then []
    else LastPart(s[..|s| - 1]) + [s[|s| - 1]]
  }

  function WbsSuffix(wbs: string): int {
    ParseInt(LastPart(wbs))
  }

  function ChildCode(code: string, n: nat): string {
    code + "." + Digits(n)
  }

  /** A child's code extends its parent's by a dot and something. */
  predicate Extends(child: string, parent: string) {
    |parent| < |child| && child[..|parent| + 1] == parent + "."
  }

  lemma ChildCodeExtends(code: string, n: nat)
    ensures Extends(ChildCode(code, n), code)
  {
  }

  lemma {:induction false} LeadingDigits(s: string, c: char, acc: nat)
    requires AllDigits(s) && IsDigit(c)
    ensures LeadingNumber(s + [c], acc) == LeadingNumber(s, acc) * 10 + (c as int - '0' as int)
  {
    if s == [] {
      assert (s + [c])[1..] == [];
    } else {
      assert (s + [c])[1..] == s[1..] + [c];
      LeadingDigits(s[1..], c, acc * 10 + (s[0] as int - '0' as int));
    }
  }

  lemma {:induction false} LeadingIsNumber(n: nat)
    ensures LeadingNumber(Digits(n), 0) == n
  {
    var c := '0' + (n % 10) as char;
    if n < 10 {
      assert [c][1..] == [];
    } else {
      LeadingIsNumber(n / 10);
      DigitsOnly(n / 10);
      LeadingDigits(Digits(n / 10), c, 0);
    }
  }

  lemma {:induction false} LastPartOfCode(code: string, s: string)
    requires '.' !in s
    ensures LastPart(code + "." + s) == s
  {
    var all := code + "." + s;
    if s == [] {
      assert all == code + ".";
    } else {
      assert all[..|all| - 1] == code + "." + s[..|s| - 1];
      LastPartOfCode(code, s[..|s| - 1]);
    }
  }

  lemma {:induction false} LastPartAlone(s: string)
    requires '.' !in s
    ensures LastPart(s) == s
  {
    if s != [] {
      LastPartAlone(s[..|s| - 1]);
      assert s == s[..|s| - 1] + [s[|s| - 1]];
    }
  }

  lemma {:induction false} LeadingStops(digits: string, rest: string, acc: nat)
    requires AllDigits(digits) && (rest == [] || !IsDigit(rest[0]))
    ensures LeadingNumber(digits + rest, acc) == LeadingNumber(digits, acc)
  {
    if digits == [] {
      assert digits + rest == rest;
    } else {
      assert (digits + rest)[1..] == digits[1..] + rest;
      LeadingStops(digits[1..], rest, acc * 10 + (digits[0] as int - '0' as int));
    }
  }

  lemma {:induction false} LeadingIsValue(digits: string)
    requires AllDigits(digits)
    ensures LeadingNumber(digits, 0) == Value(digits)
  {
    if digits != [] {
      var n := |digits| - 1;
      assert digits == digits[..n] + [digits[n]];
      LeadingIsValue(digits[..n]);
      LeadingDigits(digits[..n], digits[n], 0);
    }
  }

  const SPACES: set<int> :=
    {0x09, 0x0A, 0x0B, 0x0C, 0x0D, 0x20, 0xA0, 0x1680, 0x2000, 0x2001, 0x2002, 0x2003, 0x2004, 0x2005, 0x2006, 0x2007,
     0x2008, 0x2009, 0x200A, 0x2028, 0x2029, 0x202F, 0x205F, 0x3000, 0xFEFF}

  function Signed(sign: string, digits: string): int
    requires AllDigits(digits)
  {
    var n: int := Value(digits);
    if sign == "-" then -n else n
  }

  /** White space, a sign, digits, and something that is not a digit: the parts of a text as `parseInt` reads it. */
  ghost predicate Reads(spaces: string, sign: string, digits: string, rest: string) {
    && (forall i :: 0 <= i < |spaces| ==> spaces[i] as int in SPACES)
    && (sign == "" || sign == "+" || sign == "-")
    && AllDigits(digits)
    && (rest == [] || !IsDigit(rest[0]))
    && (sign == "" && digits == "" ==> rest == [] || !(rest[0] as int in SPACES || rest[0] == '+' || rest[0] == '-'))
  }

  lemma ParseSigned(sign: string, digits: string, rest: string)
    requires Reads("", sign, digits, rest)
    ensures ParseInt(sign + digits + rest) == Signed(sign, digits)
  {
    LeadingStops(digits, rest, 0);
    LeadingIsValue(digits);
    var all := sign + digits + rest;
    if sign == "" {
      assert all == digits + rest;
      if digits != [] {
        assert all[0] == digits[0];
      }
    } else {
      assert all[0] == sign[0] && all[1..] == digits + rest;
    }
  }

  /** Reading any text: white space is skipped, the sign counts, and reading stops at the first character that is no digit. */
  lemma {:induction false} ParseReads(spaces: string, sign: string, digits: string, rest: string)
    requires Reads(spaces, sign, digits, rest)
    ensures ParseInt(spaces + sign + digits + rest) == Signed(sign, digits)
  {
    if spaces == [] {
      assert spaces + sign + digits + rest == sign + digits + rest;
      ParseSigned(sign, digits, rest);
    } else {
      assert (spaces + sign + digits + rest)[1..] == spaces[1..] + sign + digits + rest;
      ParseReads(spaces[1..], sign, digits, rest);
    }
  }

  /** The suffix of a code is what follows its last dot, or all of it, read like that. */
  lemma SuffixReads(code: string, spaces: string, sign: string, digits: string, rest: string)
    requires Reads(spaces, sign, digits, rest) && '.' !in spaces + sign + digits + rest
    ensures var n := Signed(sign, digits);
            WbsSuffix(code + "." + (spaces + sign + digits + rest)) == n && WbsSuffix(spaces + sign + digits + rest) == n
  {
    var part := spaces + sign + digits + rest;
    LastPartOfCode(code, part);
    LastPartAlone(part);
    ParseReads(spaces, sign, digits, rest);
  }

  lemma ParseDigits(s: string)
    requires s != [] && AllDigits(s)
    ensures ParseInt(s) == LeadingNumber(s, 0)
  {
  }

  /** Reading back a stamped code gives the rank it was stamped with. */
  lemma StampReadsBack(code: string, n: nat)
    ensures WbsSuffix(ChildCode(code, n)) == n
  {
    var s := Digits(n);
    DigitsOnly(n);
    LastPartOfCode(code, s);
    LeadingIsNumber(n);
    ParseDigits(s);
  }

  // ---- sorting ------------------------------------------------------------------------------------

  function KeyOf(keys: map<nat, int>, id: nat): int {
    if id in keys then keys[id] else 0
  }

  function Insert(keys: map<nat, int>, sorted: seq<nat>, id: nat): seq<nat> {
    if sorted == [] then [id]
    else if KeyOf(keys, sorted[|sorted| - 1]) <= KeyOf(keys, id) then sorted + [id]
    else Insert(keys, sorted[..|sorted| - 1], id) + [sorted[|sorted| - 1]]
  }

  /** A stable sort by key. */
  function SortBy(keys: map<nat, int>, ids: seq<nat>): seq<nat> {
    if ids == [] then [] else Insert(keys, SortBy(keys, ids[..|ids| - 1]), ids[|ids| - 1])
  }

  ghost predicate SortedBy(keys: map<nat, int>, ids: seq<nat>) {
    forall i, j :: 0 <= i < j < |ids| ==> KeyOf(keys, ids[i]) <= KeyOf(keys, ids[j])
  }

  lemma {:induction false} InsertPermutes(keys: map<nat, int>, sorted: seq<nat>, id: nat)
    ensures multiset(Insert(keys, sorted, id)) == multiset(sorted) + multiset{id}
  {
    if sorted != [] {
      var n := |sorted| - 1;
      assert sorted == sorted[..n] + [sorted[n]];
      InsertPermutes(keys, sorted[..n], id);
    }
  }

  /** A bound on all keys survives an insertion below it. */
  lemma {:induction false} InsertBounded(keys: map<nat, int>, sorted: seq<nat>, id: nat, bound: int)
    requires KeyOf(keys, id) <= bound && forall i :: 0 <= i < |sorted| ==> KeyOf(keys, sorted[i]) <= bound
    ensures forall i :: 0 <= i < |Insert(keys, sorted, id)| ==> KeyOf(keys, Insert(keys, sorted, id)[i]) <= bound
  {
    if sorted != [] {
      InsertBounded(keys, sorted[..|sorted| - 1], id, bound);
    }
  }

  lemma {:induction false} InsertSorts(keys: map<nat, int>, sorted: seq<nat>, id: nat)
    requires SortedBy(keys, sorted)
    ensures SortedBy(keys, Insert(keys, sorted, id))
  {
    if sorted != [] && KeyOf(keys, sorted[|sorted| - 1]) > KeyOf(keys, id) {
      var n := |sorted| - 1;
      InsertSorts(keys, sorted[..n], id);
      InsertBounded(keys, sorted[..n], id, KeyOf(keys, sorted[n]));
    }
  }

  /** Sorting keeps the children, each as often as before, and puts their keys in order. */
  lemma {:induction false} SortSorts(keys: map<nat, int>, ids: seq<nat>)
    ensures SortedBy(keys, SortBy(keys, ids))
    ensures multiset(SortBy(keys, ids)) == multiset(ids)
  {
    if ids != [] {
      var n := |ids| - 1;
      SortSorts(keys, ids[..n]);
      assert ids == ids[..n] + [ids[n]];
      InsertSorts(keys, SortBy(keys, ids[..n]), ids[n]);
      InsertPermutes(keys, SortBy(keys, ids[..n]), ids[n]);
    }
  }

  /** One place before another in a list. */
  ghost predicate Precedes(ids: seq<nat>, x: nat, y: nat) {
    exists i, j :: 0 <= i < j < |ids| && ids[i] == x && ids[j] == y
  }

  /** Among equal keys the places of the first list count. */
  ghost predicate StableIn(keys: map<nat, int>, first: seq<nat>, sorted: seq<nat>) {
    forall i, j :: 0 <= i < j < |sorted| && KeyOf(keys, sorted[i]) == KeyOf(keys, sorted[j]) ==> Precedes(first, sorted[i], sorted[j])
  }

  lemma {:induction false} InsertStays(keys: map<nat, int>, first: seq<nat>, sorted: seq<nat>, id: nat)
    requires SortedBy(keys, sorted) && StableIn(keys, first, sorted)
    requires forall x :: x in sorted ==> Precedes(first, x, id)
    ensures StableIn(keys, first, Insert(keys, sorted, id))
  {
    if sorted != [] && KeyOf(keys, sorted[|sorted| - 1]) > KeyOf(keys, id) {
      var n := |sorted| - 1;
      var more := Insert(keys, sorted[..n], id);
      InsertStays(keys, first, sorted[..n], id);
      InsertPermutes(keys, sorted[..n], id);
      assert Insert(keys, sorted, id) == more + [sorted[n]];
      forall i | 0 <= i < |more| && KeyOf(keys, more[i]) == KeyOf(keys, sorted[n])
        ensures Precedes(first, more[i], sorted[n])
      {
        assert more[i] in multiset(more);
        assert more[i] in sorted[..n];
        var q :| 0 <= q < n && sorted[q] == more[i];
      }
    }
  }

  /** Sorting is stable. */
  lemma {:induction false} SortStays(keys: map<nat, int>, ids: seq<nat>)
    ensures StableIn(keys, ids, SortBy(keys, ids))
  {
    if ids != [] {
      var n := |ids| - 1;
      var sorted := SortBy(keys, ids[..n]);
      SortStays(keys, ids[..n]);
      SortSorts(keys, ids[..n]);
      forall i, j | 0 <= i < j < |sorted| && KeyOf(keys, sorted[i]) == KeyOf(keys, sorted[j])
        ensures Precedes(ids, sorted[i], sorted[j])
      {
        LaterPlaces(ids[..n], ids, sorted[i], sorted[j]);
      }
      forall x | x in sorted
        ensures Precedes(ids, x, ids[n])
      {
        assert x in multiset(sorted);
        assert x in ids[..n];
        var i :| 0 <= i < n && ids[i] == x;
      }
      InsertStays(keys, ids, sorted, ids[n]);
    }
  }

  lemma LaterPlaces(a: seq<nat>, b: seq<nat>, x: nat, y: nat)
    requires |a| <= |b| && b[..|a|] == a && Precedes(a, x, y)
    ensures Precedes(b, x, y)
  {
    var i, j :| 0 <= i < j < |a| && a[i] == x && a[j] == y;
    assert b[i] == b[..|a|][i] && b[j] == b[..|a|][j];
  }

  lemma {:induction false} InsertFrame(a: map<nat, int>, b: map<nat, int>, sorted: seq<nat>, id: nat)
    requires KeyOf(a, id) == KeyOf(b, id) && forall x :: x in sorted ==> KeyOf(a, x) == KeyOf(b, x)
    ensures Insert(a, sorted, id) == Insert(b, sorted, id)
  {
    if sorted != [] {
      InsertFrame(a, b, sorted[..|sorted| - 1], id);
    }
  }

  /** The order of some rows depends on the keys of these rows only. */
  lemma {:induction false} SortFrame(a: map<nat, int>, b: map<nat, int>, ids: seq<nat>)
    requires forall x :: x in ids ==> KeyOf(a, x) == KeyOf(b, x)
    ensures SortBy(a, ids) == SortBy(b, ids)
  {
    if ids != [] {
      var n := |ids| - 1;
      SortFrame(a, b, ids[..n]);
      SortSorts(a, ids[..n]);
      forall x | x in SortBy(a, ids[..n])
        ensures x in ids
      {
        assert x in multiset(SortBy(a, ids[..n]));
        assert x in ids[..n];
      }
      InsertFrame(a, b, SortBy(a, ids[..n]), ids[n]);
    }
  }

  predicate NoRepeats(ids: seq<nat>) {
    forall i, j :: 0 <= i < j < |ids| ==> ids[i] != ids[j]
  }

  lemma {:induction false} CountOnce(ids: seq<nat>)
    requires NoRepeats(ids)
    ensures forall x :: x in ids ==> multiset(ids)[x] == 1
  {
    if ids != [] {
      var n := |ids| - 1;
      CountOnce(ids[..n]);
      assert ids == ids[..n] + [ids[n]];
      assert ids[n] !in ids[..n];
    }
  }

  lemma SamePermutation(a: seq<nat>, b: seq<nat>)
    requires multiset(a) == multiset(b) && NoRepeats(b)
    ensures NoRepeats(a) && forall x :: x in a <==> x in b
  {
    CountOnce(b);
    forall x
      ensures x in a <==> x in b
    {
      assert x in a <==> x in multiset(a);
      assert x in b <==> x in multiset(b);
    }
    forall i, j | 0 <= i < j < |a|
      ensures a[i] != a[j]
    {
      if a[i] == a[j] {
        TwiceCountsTwo(a, i, j);
      }
    }
  }

  lemma TwiceCountsTwo(a: seq<nat>, i: nat, j: nat)
    requires i < j < |a| && a[i] == a[j]
    ensures multiset(a)[a[i]] >= 2
  {
    assert a == a[..j] + [a[j]] + a[j + 1..];
    assert a[i] in a[..j];
    assert multiset(a) == multiset(a[..j]) + multiset{a[j]} + multiset(a[j + 1..]);
  }
}
