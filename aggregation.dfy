/** The computation both `calcularTabla` functions share: for each risk category of a fixed
    vocabulary, the sums of `total` and `pob_vulnerable` over the rows a cursor filtered by
    that category yields, and each category's share of the grand total as a percentage
    rounded to two decimals. The two variants of the percentage loop are methods here;
    each report module calls its own. */
module Aggregation {
  import opened Wrappers

  /** One row of the census layer: its risk category and the two summed fields
      `pob_vulnerable` and `total`. */
  datatype Row = Row(category: string, vulnerable: int, total: int)

  /** The three dictionaries `calcularTabla` returns, keyed by category. Percentages are
      held in hundredths of a percent (the float `round(x, 2)` times 100). */
  datatype Tables = Tables(totals: map<string, int>, vulnerable: map<string, int>, percentages: map<string, int>)

  /** The only failure of the computation itself: dividing by a zero grand total. */
  datatype TableError = DivisionByZero

  /** What `str(e)` gives for the exception Python raises. */
  function ErrorText(e: TableError): string {
    match e
    case DivisionByZero => "division by zero"
  }

  function Abs(x: int): nat {
    if x < 0 then -x else x
  }

  // ---------------------------------------------------------------------------
  // Specification: per-category sums
  // ---------------------------------------------------------------------------

  /** The rows a search cursor opened with the clause `<field> = '<category>'` yields, in
      table order: exactly the rows whose category equals `category`. */
  function Select(rows: seq<Row>, category: string): seq<Row> {
    if rows == [] then []
    else
      var last := rows[|rows| - 1];
      Select(rows[..|rows| - 1], category) + (if last.category == category then [last] else [])
  }

  /** The cursor yields rows of the table, all of the category and none of it left out. */
  lemma {:induction false} SelectExact(rows: seq<Row>, category: string)
    ensures |Select(rows, category)| <= |rows|
    ensures forall x :: x in Select(rows, category) <==> x in rows && x.category == category
  {
    if rows != [] {
      var init, last := rows[..|rows| - 1], rows[|rows| - 1];
      assert rows == init + [last];
      SelectExact(init, category);
    }
  }

  /** The cursor yields each row of the category as many times as the table holds it, so
      two identical rows are both summed. */
  lemma {:induction false} SelectCounts(rows: seq<Row>, category: string)
    ensures forall x :: (multiset(Select(rows, category))[x] ==
                         if x.category == category then multiset(rows)[x] else 0)
  {
    if rows != [] {
      var init, last := rows[..|rows| - 1], rows[|rows| - 1];
      assert rows == init + [last];
      SelectCounts(init, category);
      assert multiset(rows) == multiset(init) + multiset{last};
    }
  }

  function SumTotal(rows: seq<Row>): int {
    if rows == [] then 0 else SumTotal(rows[..|rows| - 1]) + rows[|rows| - 1].total
  }

  function SumVulnerable(rows: seq<Row>): int {
    if rows == [] then 0 else SumVulnerable(rows[..|rows| - 1]) + rows[|rows| - 1].vulnerable
  }

  /** The sum of `total` over the rows of `category`. */
  function CategoryTotal(rows: seq<Row>, category: string): int {
    SumTotal(Select(rows, category))
  }

  /** The sum of `pob_vulnerable` over the rows of `category`. */
  function CategoryVulnerable(rows: seq<Row>, category: string): int {
    SumVulnerable(Select(rows, category))
  }

  predicate Distinct(vocabulary: seq<string>) {
    forall i, j :: 0 <= i < j < |vocabulary| ==> vocabulary[i] != vocabulary[j]
  }

  /** The sum of the category totals over the vocabulary. */
  function GrandTotal(rows: seq<Row>, vocabulary: seq<string>): int {
    if vocabulary == [] then 0
    else CategoryTotal(rows, vocabulary[0]) + GrandTotal(rows, vocabulary[1..])
  }

  /** Python's `sum(d.values())` for a dictionary whose keys are `keys`. */
  function SumOver(keys: seq<string>, m: map<string, int>): int
    requires forall k :: k in keys ==> k in m
  {
    if keys == [] then 0 else m[keys[0]] + SumOver(keys[1..], m)
  }

  /** The dictionary `{c: 0 for c in vocabulary}`. */
  function ZeroFilled(vocabulary: seq<string>): (m: map<string, int>)
    ensures m.Keys == set c | c in vocabulary
    ensures forall c :: c in m ==> m[c] == 0
  {
    map c | c in vocabulary :: 0
  }

  /** The rows whose category belongs to the vocabulary. */
  function InVocabulary(rows: seq<Row>, vocabulary: seq<string>): seq<Row> {
    if rows == [] then []
    else
      var last := rows[|rows| - 1];
      InVocabulary(rows[..|rows| - 1], vocabulary) + (if last.category in vocabulary then [last] else [])
  }

  // ---------------------------------------------------------------------------
  // Specification: rounding and the tables
  // ---------------------------------------------------------------------------

  /** Python's `round` on the exact quotient `n / d`: the nearest integer, ties to the even
      one (`RoundHalfEvenNearest`). */
  function RoundHalfEven(n: int, d: int): int
    requires d != 0
    decreases if d < 0 then 1 else 0
  {
    if d < 0 then RoundHalfEven(-n, -d)
    else
      var q, r := n / d, n % d;
      if 2 * r < d then q
      else if 2 * r > d then q + 1
      else if q % 2 == 0 then q
      else q + 1
  }

  /** `RoundHalfEven` is within half a unit of `n / d`, and even on a tie. */
  lemma {:induction false} RoundHalfEvenNearest(n: int, d: int)
    requires d != 0
    ensures 2 * Abs(n - RoundHalfEven(n, d) * d) <= Abs(d)
    ensures 2 * Abs(n - RoundHalfEven(n, d) * d) == Abs(d) ==> RoundHalfEven(n, d) % 2 == 0
    decreases if d < 0 then 1 else 0
  {
    if d < 0 {
      RoundHalfEvenNearest(-n, -d);
      NegatedRemainder(n, d, RoundHalfEven(-n, -d));
    } else {
      Remainders(n, d);
    }
  }

  lemma NegatedRemainder(n: int, d: int, h: int)
    ensures n - h * d == -(-n - h * -d)
  {}

  /** What is left of `n` after taking `n / d` or one more times `d`. */
  lemma Remainders(n: int, d: int)
    requires d > 0
    ensures n - (n / d) * d == n % d
    ensures n - (n / d + 1) * d == n % d - d
  {}

  /** `round(total / grand * 100, 2)` in hundredths of a percent, on exact numbers. */
  function Percentage(total: int, grand: int): int
    requires grand != 0
  {
    RoundHalfEven(10000 * total, grand)
  }

  /** The result `calcularTabla` produces for `rows` and `vocabulary`: division by zero when
      some category has to be divided by a zero grand total, and otherwise, for every
      category of the vocabulary and no other key, its two sums and its rounded share. */
  function TableOf(rows: seq<Row>, vocabulary: seq<string>): Result<Tables, TableError> {
    var grand := GrandTotal(rows, vocabulary);
    if |vocabulary| > 0 && grand == 0 then Failure(DivisionByZero)
    else
      var totals := map c | c in vocabulary :: CategoryTotal(rows, c);
      Success(Tables(
        totals,
        map c | c in vocabulary :: CategoryVulnerable(rows, c),
        map c | c in vocabulary :: Percentage(totals[c], grand)))
  }

  /** The dictionaries of sums and of shares of their grand total, once complete, are the
      tables `TableOf` describes. */
  lemma SharesMakeTable(rows: seq<Row>, vocabulary: seq<string>,
                        totals: map<string, int>, vulnerable: map<string, int>, percentages: map<string, int>)
    requires totals == map c | c in vocabulary :: CategoryTotal(rows, c)
    requires vulnerable == map c | c in vocabulary :: CategoryVulnerable(rows, c)
    requires vocabulary != [] ==> GrandTotal(rows, vocabulary) != 0
    requires forall c :: c in percentages <==> c in vocabulary
    requires forall j :: 0 <= j < |vocabulary| ==>
      percentages[vocabulary[j]] == Percentage(totals[vocabulary[j]], GrandTotal(rows, vocabulary))
    ensures TableOf(rows, vocabulary) == Success(Tables(totals, vulnerable, percentages))
  {
    ShareMap(vocabulary, totals, GrandTotal(rows, vocabulary), percentages);
  }

  /** A dictionary filled category by category with rounded shares is the dictionary of
      shares. */
  lemma ShareMap(vocabulary: seq<string>, totals: map<string, int>, grand: int, percentages: map<string, int>)
    requires vocabulary != [] ==> grand != 0
    requires forall c :: c in vocabulary ==> c in totals
    requires forall c :: c in percentages <==> c in vocabulary
    requires forall j :: 0 <= j < |vocabulary| ==>
      percentages[vocabulary[j]] == Percentage(totals[vocabulary[j]], grand)
    ensures percentages == map c | c in vocabulary :: Percentage(totals[c], grand)
  {
    forall c | c in vocabulary
      ensures percentages[c] == Percentage(totals[c], grand)
    {
      var j :| 0 <= j < |vocabulary| && vocabulary[j] == c;
    }
  }

  // ---------------------------------------------------------------------------
  // The nested accumulation loop
  // ---------------------------------------------------------------------------

  /** The first half of `calcularTabla`: zero-fill two dictionaries keyed by the vocabulary,
      then for each category walk the cursor of its rows and add each row's two fields into
      that category's entries. */
  method Accumulate(rows: seq<Row>, vocabulary: seq<string>)
    returns (totals: map<string, int>, vulnerable: map<string, int>)
    requires Distinct(vocabulary)
    ensures totals == map c | c in vocabulary :: CategoryTotal(rows, c)
    ensures vulnerable == map c | c in vocabulary :: CategoryVulnerable(rows, c)
  {
    ghost var expectedTotals := map c | c in vocabulary :: CategoryTotal(rows, c);
    ghost var expectedVulnerable := map c | c in vocabulary :: CategoryVulnerable(rows, c);
    totals := ZeroFilled(vocabulary);
    vulnerable := ZeroFilled(vocabulary);
    for k := 0 to |vocabulary|
      invariant forall c :: c in totals <==> c in vocabulary
      invariant forall c :: c in vulnerable <==> c in vocabulary
      invariant forall j :: 0 <= j < k ==> totals[vocabulary[j]] == expectedTotals[vocabulary[j]]
      invariant forall j :: 0 <= j < k ==> vulnerable[vocabulary[j]] == expectedVulnerable[vocabulary[j]]
      invariant forall j :: k <= j < |vocabulary| ==> totals[vocabulary[j]] == 0
      invariant forall j :: k <= j < |vocabulary| ==> vulnerable[vocabulary[j]] == 0
    {
      var category := vocabulary[k];
      var total, vulnerableSum := SumCursor(Select(rows, category), totals[category], vulnerable[category]);
      FillStep(vocabulary, k, totals, expectedTotals, total);
      FillStep(vocabulary, k, vulnerable, expectedVulnerable, vulnerableSum);
      totals := totals[category := total];
      vulnerable := vulnerable[category := vulnerableSum];
    }
    FilledMap(vocabulary, totals, expectedTotals);
    FilledMap(vocabulary, vulnerable, expectedVulnerable);
  }

  /** Storing the expected value of the next category extends the filled prefix by one. */
  lemma FillStep(vocabulary: seq<string>, k: int, m: map<string, int>, expected: map<string, int>, value: int)
    requires Distinct(vocabulary) && 0 <= k < |vocabulary|
    requires forall c :: c in m <==> c in vocabulary
    requires forall c :: c in vocabulary ==> c in expected
    requires forall j :: 0 <= j < k ==> m[vocabulary[j]] == expected[vocabulary[j]]
    requires forall j :: k <= j < |vocabulary| ==> m[vocabulary[j]] == 0
    requires value == expected[vocabulary[k]]
    ensures var m' := m[vocabulary[k] := value];
      (forall c :: c in m' <==> c in vocabulary) &&
      (forall j :: 0 <= j < k + 1 ==> m'[vocabulary[j]] == expected[vocabulary[j]]) &&
      (forall j :: k + 1 <= j < |vocabulary| ==> m'[vocabulary[j]] == 0)
  {}

  /** A dictionary with the keys of the vocabulary that agrees with `expected` on each of
      them is `expected`. */
  lemma FilledMap(vocabulary: seq<string>, m: map<string, int>, expected: map<string, int>)
    requires forall c :: c in m <==> c in vocabulary
    requires forall c :: c in expected <==> c in vocabulary
    requires forall j :: 0 <= j < |vocabulary| ==> m[vocabulary[j]] == expected[vocabulary[j]]
    ensures m == expected
  {
    forall c | c in vocabulary
      ensures m[c] == expected[c]
    {
      var j :| 0 <= j < |vocabulary| && vocabulary[j] == c;
    }
  }

  /** `calcularTabla` of the flood report: the two sums per category, then
      `sum(valores_suma.values())` once and each category's share of it. A zero sum makes the
      first division raise. */
  method CalculateTableSumOnce(rows: seq<Row>, vocabulary: seq<string>) returns (r: Result<Tables, TableError>)
    requires Distinct(vocabulary)
    ensures r == TableOf(rows, vocabulary)
  {
    var totals, vulnerable := Accumulate(rows, vocabulary);
    var percentages := ZeroFilled(vocabulary);
    var grand := SumOver(vocabulary, totals);
    SumOverTotals(rows, vocabulary, totals);
    for k := 0 to |vocabulary|
      invariant forall c :: c in percentages <==> c in vocabulary
      invariant forall j :: 0 <= j < k ==>
        grand != 0 && percentages[vocabulary[j]] == Percentage(totals[vocabulary[j]], grand)
    {
      var category := vocabulary[k];
      if grand == 0 {
        return Failure(DivisionByZero);
      }
      percentages := percentages[category := Percentage(totals[category], grand)];
    }
    SharesMakeTable(rows, vocabulary, totals, vulnerable, percentages);
    return Success(Tables(totals, vulnerable, percentages));
  }

  /** `calcularTabla` of the heat-island report: as above, but `sum(valores_suma.values())`
      is taken again for every category. The totals do not change in that loop, so every
      share is taken of the same grand total. */
  method CalculateTableSumEachTime(rows: seq<Row>, vocabulary: seq<string>) returns (r: Result<Tables, TableError>)
    requires Distinct(vocabulary)
    ensures r == TableOf(rows, vocabulary)
  {
    var totals, vulnerable := Accumulate(rows, vocabulary);
    var percentages := ZeroFilled(vocabulary);
    ghost var grand := GrandTotal(rows, vocabulary);
    SumOverTotals(rows, vocabulary, totals);
    for k := 0 to |vocabulary|
      invariant forall c :: c in percentages <==> c in vocabulary
      invariant forall j :: 0 <= j < k ==>
        grand != 0 && percentages[vocabulary[j]] == Percentage(totals[vocabulary[j]], grand)
    {
      var category := vocabulary[k];
      var divisor := SumOver(vocabulary, totals);
      if divisor == 0 {
        return Failure(DivisionByZero);
      }
      percentages := percentages[category := Percentage(totals[category], divisor)];
    }
    SharesMakeTable(rows, vocabulary, totals, vulnerable, percentages);
    return Success(Tables(totals, vulnerable, percentages));
  }

  /** The inner loop of `calcularTabla` for one category: starting from the category's two
      entries, add `total` and `pob_vulnerable` of each row the cursor yields. */
  method SumCursor(cursor: seq<Row>, total0: int, vulnerable0: int) returns (total: int, vulnerable: int)
    ensures total == total0 + SumTotal(cursor)
    ensures vulnerable == vulnerable0 + SumVulnerable(cursor)
  {
    total, vulnerable := total0, vulnerable0;
    for n := 0 to |cursor|
      invariant total == total0 + SumTotal(cursor[..n])
      invariant vulnerable == vulnerable0 + SumVulnerable(cursor[..n])
    {
      assert cursor[..n + 1][..n] == cursor[..n];
      vulnerable := vulnerable + cursor[n].vulnerable;
      total := total + cursor[n].total;
    }
    assert cursor[..|cursor|] == cursor;
  }

  // ---------------------------------------------------------------------------
  // Properties of the specification
  // ---------------------------------------------------------------------------

  /** Summing a dictionary that agrees with the category totals gives the grand total. */
  lemma {:induction false} SumOverTotals(rows: seq<Row>, vocabulary: seq<string>, totals: map<string, int>)
    requires forall c :: c in vocabulary ==> c in totals && totals[c] == CategoryTotal(rows, c)
    ensures SumOver(vocabulary, totals) == GrandTotal(rows, vocabulary)
  {
    if vocabulary != [] {
      SumOverTotals(rows, vocabulary[1..], totals);
    }
  }

  lemma SumTotalSnoc(rows: seq<Row>, x: Row)
    ensures SumTotal(rows + [x]) == SumTotal(rows) + x.total
    ensures SumVulnerable(rows + [x]) == SumVulnerable(rows) + x.vulnerable
  {
    assert (rows + [x])[..|rows|] == rows;
  }

  /** One more row adds its `total` to the grand total exactly when its category is in the
      vocabulary, and to no category twice. */
  lemma {:induction false} GrandTotalSnoc(rows: seq<Row>, x: Row, vocabulary: seq<string>)
    requires Distinct(vocabulary)
    ensures GrandTotal(rows + [x], vocabulary)
         == GrandTotal(rows, vocabulary) + (if x.category in vocabulary then x.total else 0)
  {
    if vocabulary != [] {
      var c, rest := vocabulary[0], vocabulary[1..];
      DistinctTail(vocabulary);
      assert (rows + [x])[..|rows|] == rows;
      if x.category == c {
        assert Select(rows + [x], c) == Select(rows, c) + [x];
        SumTotalSnoc(Select(rows, c), x);
      } else {
        assert Select(rows + [x], c) == Select(rows, c);
      }
      GrandTotalSnoc(rows, x, rest);
      assert x.category in vocabulary <==> x.category == c || x.category in rest by {
        assert vocabulary == [c] + rest;
      }
    }
  }

  /** A row whose category is outside the vocabulary changes nothing: no sum, no share and
      not whether the division fails. */
  lemma RowOutsideVocabularyIgnored(rows: seq<Row>, x: Row, vocabulary: seq<string>)
    requires Distinct(vocabulary) && x.category !in vocabulary
    ensures TableOf(rows + [x], vocabulary) == TableOf(rows, vocabulary)
  {
    var more := rows + [x];
    GrandTotalSnoc(rows, x, vocabulary);
    assert more[..|rows|] == rows;
    forall c | c in vocabulary
      ensures CategoryTotal(more, c) == CategoryTotal(rows, c)
      ensures CategoryVulnerable(more, c) == CategoryVulnerable(rows, c)
    {
      assert Select(more, c) == Select(rows, c);
    }
    SameSumsSameTable(more, rows, vocabulary);
  }

  /** `TableOf` depends on the rows only through the category sums. */
  lemma SameSumsSameTable(rows1: seq<Row>, rows2: seq<Row>, vocabulary: seq<string>)
    requires GrandTotal(rows1, vocabulary) == GrandTotal(rows2, vocabulary)
    requires forall c :: c in vocabulary ==>
      CategoryTotal(rows1, c) == CategoryTotal(rows2, c) && CategoryVulnerable(rows1, c) == CategoryVulnerable(rows2, c)
    ensures TableOf(rows1, vocabulary) == TableOf(rows2, vocabulary)
  {
    var grand := GrandTotal(rows1, vocabulary);
    if !(|vocabulary| > 0 && grand == 0) {
      assert (map c | c in vocabulary :: CategoryTotal(rows1, c)) == map c | c in vocabulary :: CategoryTotal(rows2, c);
      assert (map c | c in vocabulary :: CategoryVulnerable(rows1, c)) == map c | c in vocabulary :: CategoryVulnerable(rows2, c);
    }
  }

  /** The three dictionaries have exactly the categories of the vocabulary as keys. */
  lemma TableKeys(rows: seq<Row>, vocabulary: seq<string>)
    requires TableOf(rows, vocabulary).Success?
    ensures var t := TableOf(rows, vocabulary).value;
      forall c :: (c in t.totals <==> c in vocabulary) && (c in t.vulnerable <==> c in vocabulary)
        && (c in t.percentages <==> c in vocabulary)
  {}

  lemma DistinctTail(vocabulary: seq<string>)
    requires Distinct(vocabulary) && vocabulary != []
    ensures Distinct(vocabulary[1..]) && vocabulary[0] !in vocabulary[1..]
  {
    var rest := vocabulary[1..];
    forall i, j | 0 <= i < j < |rest| ensures rest[i] != rest[j] {
      assert rest[i] == vocabulary[i + 1] && rest[j] == vocabulary[j + 1];
    }
    forall j | 0 <= j < |rest| ensures rest[j] != vocabulary[0] {
      assert rest[j] == vocabulary[j + 1];
    }
  }

  lemma {:induction false} GrandTotalOfNoRows(vocabulary: seq<string>)
    ensures GrandTotal([], vocabulary) == 0
    ensures vocabulary != [] ==> TableOf([], vocabulary) == Failure(DivisionByZero)
  {
    if vocabulary != [] {
      GrandTotalOfNoRows(vocabulary[1..]);
    }
  }

  /** Rows whose category is outside the vocabulary contribute nothing: the grand total is
      the sum of `total` over the in-vocabulary rows, each counted once. */
  lemma {:induction false} GrandTotalCountsVocabularyRows(rows: seq<Row>, vocabulary: seq<string>)
    requires Distinct(vocabulary)
    ensures GrandTotal(rows, vocabulary) == SumTotal(InVocabulary(rows, vocabulary))
  {
    if rows == [] {
      GrandTotalOfNoRows(vocabulary);
    } else {
      var init, last := rows[..|rows| - 1], rows[|rows| - 1];
      assert rows == init + [last];
      GrandTotalCountsVocabularyRows(init, vocabulary);
      GrandTotalSnoc(init, last, vocabulary);
      if last.category in vocabulary {
        SumTotalSnoc(InVocabulary(init, vocabulary), last);
      } else {
        assert InVocabulary(rows, vocabulary) == InVocabulary(init, vocabulary);
      }
    }
  }

  /** With non-negative totals, every category total lies between zero and the grand total. */
  lemma {:induction false} CategoryTotalWithinGrand(rows: seq<Row>, vocabulary: seq<string>, c: string)
    requires forall x :: x in rows ==> x.total >= 0
    requires c in vocabulary
    ensures 0 <= CategoryTotal(rows, c) <= GrandTotal(rows, vocabulary)
  {
    SelectExact(rows, c);
    SelectExact(rows, vocabulary[0]);
    NonNegativeSum(Select(rows, c));
    NonNegativeSum(Select(rows, vocabulary[0]));
    if vocabulary[0] != c {
      assert vocabulary == [vocabulary[0]] + vocabulary[1..];
      CategoryTotalWithinGrand(rows, vocabulary[1..], c);
    } else {
      GrandTotalNonNegative(rows, vocabulary[1..]);
    }
  }

  lemma {:induction false} NonNegativeSum(rows: seq<Row>)
    requires forall x :: x in rows ==> x.total >= 0
    ensures SumTotal(rows) >= 0
  {
    if rows != [] {
      assert rows[|rows| - 1] in rows;
      NonNegativeSum(rows[..|rows| - 1]);
    }
  }

  lemma {:induction false} GrandTotalNonNegative(rows: seq<Row>, vocabulary: seq<string>)
    requires forall x :: x in rows ==> x.total >= 0
    ensures GrandTotal(rows, vocabulary) >= 0
  {
    if vocabulary != [] {
      SelectExact(rows, vocabulary[0]);
      NonNegativeSum(Select(rows, vocabulary[0]));
      GrandTotalNonNegative(rows, vocabulary[1..]);
    }
  }

  /** A category holding part of a positive grand total gets a percentage in [0, 100]. */
  lemma PercentageWithinBounds(total: int, grand: int)
    requires 0 <= total <= grand && grand > 0
    ensures 0 <= Percentage(total, grand) <= 10000
  {
    var h := Percentage(total, grand);
    var n := 10000 * total;
    RoundHalfEvenNearest(n, grand);
    assert 2 * Abs(n - h * grand) <= grand;
    MulCancel(-1, h, grand);
    MulCancel(h, 10000, grand);
  }

  /** Dividing both sides of an inequality by a positive factor. */
  lemma MulCancel(a: int, b: int, g: int)
    requires g > 0 && a * g <= b * g + g - 1
    ensures a <= b
  {
    if a > b {
      MulMonotone(b + 1, a, g);
    }
  }

  lemma MulMonotone(a: int, b: int, g: int)
    requires a <= b && g >= 0
    ensures a * g <= b * g
  {}

  /** The exact shares `100 * total[c] / grand` add up to exactly 100: their numerators add up
      to `100 * grand`. */
  lemma {:induction false} ExactSharesSumToHundred(rows: seq<Row>, vocabulary: seq<string>)
    ensures SumOver(vocabulary, map c | c in vocabulary :: 100 * CategoryTotal(rows, c))
         == 100 * GrandTotal(rows, vocabulary)
  {
    if vocabulary != [] {
      var rest := vocabulary[1..];
      ExactSharesSumToHundred(rows, rest);
      SumOverAgree(rest, map c | c in vocabulary :: 100 * CategoryTotal(rows, c),
                         map c | c in rest :: 100 * CategoryTotal(rows, c));
    }
  }

  /** `SumOver` only reads the entries of its keys. */
  lemma {:induction false} SumOverAgree(keys: seq<string>, m1: map<string, int>, m2: map<string, int>)
    requires forall k :: k in keys ==> k in m1 && k in m2 && m1[k] == m2[k]
    ensures SumOver(keys, m1) == SumOver(keys, m2)
  {
    if keys != [] {
      SumOverAgree(keys[1..], m1, m2);
    }
  }

  /** The rounding errors of the categories, summed, are the error of the summed
      percentages against the summed exact shares. */
  lemma {:induction false} ErrorsSum(rows: seq<Row>, keys: seq<string>, grand: int,
                                     pct: map<string, int>, errors: map<string, int>)
    requires forall c :: c in keys ==>
      c in pct && c in errors && errors[c] == grand * pct[c] - 10000 * CategoryTotal(rows, c)
    ensures SumOver(keys, errors) == grand * SumOver(keys, pct) - 10000 * GrandTotal(rows, keys)
  {
    if keys != [] {
      ErrorsSum(rows, keys[1..], grand, pct, errors);
      Distribute(grand, pct[keys[0]], SumOver(keys[1..], pct));
    }
  }

  /** n errors of at most half of `grand` each add up to at most n halves of `grand`. */
  lemma {:induction false} ErrorsBound(keys: seq<string>, errors: map<string, int>, grand: int)
    requires grand > 0
    requires forall c :: c in keys ==> c in errors && 2 * Abs(errors[c]) <= grand
    ensures 2 * Abs(SumOver(keys, errors)) <= |keys| * grand
  {
    if keys != [] {
      ErrorsBound(keys[1..], errors, grand);
      AddBound(errors[keys[0]], SumOver(keys[1..], errors), grand, |keys[1..]|);
    }
  }

  lemma AddBound(e1: int, e2: int, g: int, n: nat)
    requires 2 * Abs(e1) <= g && 2 * Abs(e2) <= n * g
    ensures 2 * Abs(e1 + e2) <= (n + 1) * g
  {
    Distribute(g, n, 1);
    assert (n + 1) * g == g * (n + 1) && n * g == g * n;
  }

  /** With non-negative counts, every percentage of a successful table lies between 0 and
      100. */
  lemma TablePercentagesWithinBounds(rows: seq<Row>, vocabulary: seq<string>)
    requires TableOf(rows, vocabulary).Success?
    requires forall x :: x in rows ==> x.total >= 0
    ensures forall c :: c in vocabulary ==>
      c in TableOf(rows, vocabulary).value.percentages &&
      0 <= TableOf(rows, vocabulary).value.percentages[c] <= 10000
  {
    var grand := GrandTotal(rows, vocabulary);
    TableShares(rows, vocabulary);
    GrandTotalNonNegative(rows, vocabulary);
    forall c | c in vocabulary
      ensures 0 <= Percentage(CategoryTotal(rows, c), grand) <= 10000
    {
      CategoryTotalWithinGrand(rows, vocabulary, c);
      PercentageWithinBounds(CategoryTotal(rows, c), grand);
    }
  }

  /** The rounded percentage is within half a hundredth of the exact share. */
  lemma PercentageError(total: int, grand: int)
    requires grand > 0
    ensures 2 * Abs(grand * Percentage(total, grand) - 10000 * total) <= grand
  {
    var h := Percentage(total, grand);
    RoundHalfEvenNearest(10000 * total, grand);
    assert 2 * Abs(10000 * total - h * grand) <= grand;
    assert grand * h == h * grand;
  }

  lemma ScaleDown(g: int, s: int, n: nat)
    requires g > 0
    requires 2 * Abs(g * s - 10000 * g) <= n * g
    ensures 2 * Abs(s - 10000) <= n
  {
    Distribute(g, s, -10000);
    AbsOfMultiple(g, s - 10000);
    assert (2 * Abs(s - 10000)) * g == 2 * (g * Abs(s - 10000));
    MulCancel(2 * Abs(s - 10000), n, g);
  }

  lemma AbsOfMultiple(g: int, x: int)
    requires g > 0
    ensures Abs(g * x) == g * Abs(x)
  {
    if x < 0 {
      assert g * x == -(g * -x);
    }
  }

  lemma Distribute(g: int, a: int, b: int)
    ensures g * (a + b) == g * a + g * b
  {}

  /** The rounded percentages add up to 100 up to half a hundredth per category; for four or
      five categories, to 100 within 0.02. */
  lemma RoundedPercentagesNearHundred(rows: seq<Row>, vocabulary: seq<string>)
    requires TableOf(rows, vocabulary).Success?
    requires GrandTotal(rows, vocabulary) > 0
    ensures 2 * Abs(SumOver(vocabulary, TableOf(rows, vocabulary).value.percentages) - 10000) <= |vocabulary|
  {
    TableShares(rows, vocabulary);
    PercentagesNearHundred(rows, vocabulary, GrandTotal(rows, vocabulary), TableOf(rows, vocabulary).value.percentages);
  }

  /** Every category of a successful table has its rounded share in the percentages. */
  lemma TableShares(rows: seq<Row>, vocabulary: seq<string>)
    requires TableOf(rows, vocabulary).Success?
    ensures var pct, grand := TableOf(rows, vocabulary).value.percentages, GrandTotal(rows, vocabulary);
      (vocabulary == [] || grand != 0) &&
      forall c :: c in vocabulary ==> c in pct && pct[c] == Percentage(CategoryTotal(rows, c), grand)
  {}

  /** The same, for any dictionary holding the rounded share of every category. */
  lemma PercentagesNearHundred(rows: seq<Row>, vocabulary: seq<string>, grand: int, pct: map<string, int>)
    requires grand > 0 && grand == GrandTotal(rows, vocabulary)
    requires forall c :: c in vocabulary ==> c in pct && pct[c] == Percentage(CategoryTotal(rows, c), grand)
    ensures 2 * Abs(SumOver(vocabulary, pct) - 10000) <= |vocabulary|
  {
    forall c | c in vocabulary
      ensures 2 * Abs(grand * pct[c] - 10000 * CategoryTotal(rows, c)) <= grand
    {
      PercentageError(CategoryTotal(rows, c), grand);
    }
    NearSharesNearHundred(rows, vocabulary, grand, pct);
  }

  /** Percentages each within half a hundredth of their exact share add up to 100 within
      half a hundredth per category. */
  lemma NearSharesNearHundred(rows: seq<Row>, vocabulary: seq<string>, grand: int, pct: map<string, int>)
    requires grand > 0 && grand == GrandTotal(rows, vocabulary)
    requires forall c :: c in vocabulary ==> c in pct && 2 * Abs(grand * pct[c] - 10000 * CategoryTotal(rows, c)) <= grand
    ensures 2 * Abs(SumOver(vocabulary, pct) - 10000) <= |vocabulary|
  {
    var errors := map c | c in vocabulary :: grand * pct[c] - 10000 * CategoryTotal(rows, c);
    ErrorsSum(rows, vocabulary, grand, pct, errors);
    ErrorsBound(vocabulary, errors, grand);
    ScaleDown(grand, SumOver(vocabulary, pct), |vocabulary|);
  }
}
