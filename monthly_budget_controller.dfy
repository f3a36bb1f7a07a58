/** The budget handlers: validating the request fields, then one call into
    the budget table. */
module MonthlyBudgetController {
  import opened Common
  import opened PersonalTables
  import opened MonthlyBudgetModel
  import opened Text
  import opened Js

  /** `x < lo || x > hi` on a body field: both sides are compared as
      numbers, and a field Number reads as NaN passes both comparisons. */
  predicate NumberOutside(v: Value, lo: real, hi: real) {
    ToNumber(v).Some? && (ToNumber(v).value < lo || ToNumber(v).value > hi)
  }

  /** `isNaN(limit_amount) || parseFloat(limit_amount) <= 0`. */
  predicate LimitNotPositive(limit: Value) {
    IsNaN(limit) || FloatAtMost(limit, 0.0)
  }

  /** The 400 answers of setBudget, in their order: a falsy field, a month
      outside 1..12, a year outside 2020..2030, a limit that is not a
      positive number. */
  predicate SetBudgetRejected(category: Value, month: Value, year: Value, limit: Value) {
    || !Truthy(category) || !Truthy(month) || !Truthy(year) || !Truthy(limit)
    || NumberOutside(month, 1.0, 12.0)
    || NumberOutside(year, 2020.0, 2030.0)
    || LimitNotPositive(limit)
  }

  /** The upsert receives a NaN that makes the statement fail: parseInt of
      the category, month or year, or parseFloat of the limit. */
  predicate SetBudgetUnparsed(category: Value, month: Value, year: Value, limit: Value) {
    ParseInt(category, true).NaN? || ParseInt(month, true).NaN? || ParseInt(year, true).NaN?
    || ParseFloat(limit).None?
  }

  /** `setBudget`: 400 when a guard fails; 500 when parseInt or parseFloat
      yields NaN, since the statement then fails; otherwise the upsert of
      the parsed values, and 200. The range checks compare Number(month)
      and Number(year) while the row receives parseInt of them, so only a
      month and year given as numbers are sure to be stored in range. */
  method SetBudget(budgets: BudgetTable, caller: UserId, category: Value, month: Value, year: Value, limit: Value)
    returns (o: Outcome)
    requires budgets.Valid()
    modifies budgets
    ensures budgets.Valid()
    ensures o == BadRequest <==> SetBudgetRejected(category, month, year, limit)
    ensures o == ServerError <==>
      !SetBudgetRejected(category, month, year, limit) && SetBudgetUnparsed(category, month, year, limit)
    ensures o == Ok <==>
      !SetBudgetRejected(category, month, year, limit) && !SetBudgetUnparsed(category, month, year, limit)
    ensures o != Ok ==> budgets.rows == old(budgets.rows) && budgets.next == old(budgets.next)
    ensures o == Ok ==>
      var c, m, y := ParseInt(category, true).value, ParseInt(month, true).value, ParseInt(year, true).value;
      var l := ParseFloat(limit).value;
      && l > 0.0
      && (month.Num? ==> 1 <= m <= 12) && (year.Num? ==> 2020 <= y <= 2030)
      && budgets.Find(caller, c, m, y).Some?
      && budgets.rows[budgets.Find(caller, c, m, y).value].limit == l
      && (old(budgets.Find(caller, c, m, y)).Some? ==>
            var k := old(budgets.Find(caller, c, m, y)).value;
            budgets.rows == old(budgets.rows)[k := old(budgets.rows)[k].(limit := l)])
      && (old(budgets.Find(caller, c, m, y)).None? ==>
            budgets.rows == old(budgets.rows)[old(budgets.next) := Budget(caller, c, m, y, l)])
  {
    if SetBudgetRejected(category, month, year, limit) {
      return BadRequest;
    }
    var c, m, y, l := ParseInt(category, true), ParseInt(month, true), ParseInt(year, true), ParseFloat(limit);
    if c.NaN? || m.NaN? || y.NaN? || l.None? {
      return ServerError;
    }
    budgets.SetBudget(caller, c.value, m.value, y.value, l.value);
    return Ok;
  }

  /** A month the range check reads as NaN passes it, and parseInt then
      stores the number in front: "13x" is accepted as month 13. */
  lemma MonthCheckBypassed()
    ensures !NumberOutside(Str("13x"), 1.0, 12.0) && ParseInt(Str("13x"), true) == Int(13)
  {
    TrailingLetterNaN();
    TrailingLetterParsed();
  }

  lemma TrailingLetterNaN()
    ensures ToNumber(Str("13x")).None?
  {
    var s := "13x";
    assert !IsSpace(s[0]) && !IsSpace(s[2]);
    assert SpaceEnd(s, 0) == 0 && SpaceStart(s, 0, 3) == 3;
    assert !Prefixed(s, 0, 3);
    assert SignEnd(s, 0, 3) == 0;
    assert DigitsEnd(s, 0, 3, 10) == 2;
    assert PointEnd(s, 2, 3) == 2;
    assert ExponentAt(s, 2, 3) == (2, 0);
    assert DecimalAt(s, 0, 3).Scanned? && DecimalAt(s, 0, 3).end == 2;
    assert StringToNumber(s).None?;
  }

  lemma TrailingLetterParsed()
    ensures ParseInt(Str("13x"), true) == Int(13)
  {
    var s := "13x";
    assert !IsSpace(s[0]);
    assert SpaceEnd(s, 0) == 0;
    assert DigitsEnd(s, 0, 3, 10) == 2;
    assert DigitsValue(s, 0, 2, 10) == 13 by {
      assert DigitsValue(s, 0, 1, 10) == 1;
    }
    assert StringToInt(s, true) == Int(13);
  }

  /** A route parameter as the handlers read it: `parseInt(param)`. */
  function Param(s: string): Parsed {
    ParseInt(Str(s), true)
  }

  /** A route parameter that is a decimal numeral reads as its number. */
  lemma ParamOfDecimal(n: nat)
    ensures DecimalText(n) != "" && Param(DecimalText(n)) == Int(n)
  {
    DecimalTextReadsBack(n);
  }

  /** What getBudget answers. */
  datatype Found = Found(outcome: Outcome, budget: Option<Budget>)

  /** A route parameter is empty (`!categoryId || !month || !year`). */
  predicate ParamsMissing(category: string, month: string, year: string) {
    category == "" || month == "" || year == ""
  }

  /** parseInt of a route parameter is NaN, which makes the query fail. */
  predicate ParamsUnparsed(category: string, month: string, year: string) {
    Param(category).NaN? || Param(month).NaN? || Param(year).NaN?
  }

  /** `getBudget`: 400 when a route parameter is empty, 500 when one does
      not parse, else the caller's budget for the parsed key, or null. */
  function GetBudget(budgets: BudgetTable, caller: UserId, category: string, month: string, year: string): (r: Found)
    requires budgets.Valid()
    reads budgets
    ensures r.outcome == BadRequest <==> ParamsMissing(category, month, year)
    ensures r.outcome == ServerError <==> !ParamsMissing(category, month, year) && ParamsUnparsed(category, month, year)
    ensures r.outcome == Ok <==> !ParamsMissing(category, month, year) && !ParamsUnparsed(category, month, year)
    ensures r.outcome != Ok ==> r.budget.None?
    ensures r.outcome == Ok ==>
      (r.budget.Some? <==>
         exists k :: k in budgets.rows && HasKey(budgets.rows[k], caller, Param(category).value, Param(month).value,
                                                 Param(year).value))
    ensures r.budget.Some? ==> r.budget.value in budgets.rows.Values && r.budget.value.account == caller
  {
    if ParamsMissing(category, month, year) then Found(BadRequest, None)
    else if ParamsUnparsed(category, month, year) then Found(ServerError, None)
    else Found(Ok, budgets.GetBudget(caller, Param(category).value, Param(month).value, Param(year).value))
  }

  /** `!limit_amount`, then `isNaN(limit_amount) || parseFloat(limit_amount) <= 0`. */
  predicate LimitRejected(limit: Value) {
    !Truthy(limit) || LimitNotPositive(limit)
  }

  /** `updateBudget`: 400 when the limit is falsy or not a positive number,
      500 when a route parameter does not parse or parseFloat reads no
      number from the limit, else the limit of the caller's budget for the
      key is replaced (no such budget, no change) and 200. */
  method UpdateBudget(budgets: BudgetTable, caller: UserId, category: string, month: string, year: string,
                      limit: Value)
    returns (o: Outcome)
    requires budgets.Valid()
    modifies budgets
    ensures budgets.Valid() && budgets.next == old(budgets.next)
    ensures o == BadRequest <==> LimitRejected(limit)
    ensures o == ServerError <==>
      !LimitRejected(limit) && (ParamsUnparsed(category, month, year) || ParseFloat(limit).None?)
    ensures o == Ok <==> !LimitRejected(limit) && !ParamsUnparsed(category, month, year) && ParseFloat(limit).Some?
    ensures o != Ok ==> budgets.rows == old(budgets.rows)
    ensures o == Ok ==> ParseFloat(limit).value > 0.0
    ensures o == Ok && old(budgets.Find(caller, Param(category).value, Param(month).value, Param(year).value)).Some? ==>
      var k := old(budgets.Find(caller, Param(category).value, Param(month).value, Param(year).value)).value;
      budgets.rows == old(budgets.rows)[k := old(budgets.rows)[k].(limit := ParseFloat(limit).value)]
    ensures o == Ok && old(budgets.Find(caller, Param(category).value, Param(month).value, Param(year).value)).None? ==>
      budgets.rows == old(budgets.rows)
  {
    if !Truthy(limit) {
      return BadRequest;
    }
    if LimitNotPositive(limit) {
      return BadRequest;
    }
    var c, m, y, l := Param(category), Param(month), Param(year), ParseFloat(limit);
    if c.NaN? || m.NaN? || y.NaN? || l.None? {
      return ServerError;
    }
    budgets.UpdateBudget(caller, c.value, m.value, y.value, l.value);
    return Ok;
  }

  /** `deleteBudget`: no validation; 500 when a route parameter does not
      parse, else the caller's budget for the key is removed and 200. */
  method DeleteBudget(budgets: BudgetTable, caller: UserId, category: string, month: string, year: string)
    returns (o: Outcome)
    requires budgets.Valid()
    modifies budgets
    ensures budgets.Valid() && budgets.next == old(budgets.next)
    ensures o == ServerError <==> ParamsUnparsed(category, month, year)
    ensures o == Ok <==> o != ServerError
    ensures o != Ok ==> budgets.rows == old(budgets.rows)
    ensures o == Ok ==> budgets.rows == WithoutKey(old(budgets.rows), caller, Param(category).value,
                                                   Param(month).value, Param(year).value)
  {
    var c, m, y := Param(category), Param(month), Param(year);
    if c.NaN? || m.NaN? || y.NaN? {
      return ServerError;
    }
    budgets.DeleteBudget(caller, c.value, m.value, y.value);
    return Ok;
  }

  /** What getBudgetVsSpending answers. */
  datatype Compared = Compared(outcome: Outcome, summary: Option<Report>)

  /** `getBudgetVsSpending`: the guards of getBudget, then the model's
      report for the parsed key. */
  function GetBudgetVsSpending(budgets: BudgetTable, txs: TransactionTable, categories: CategoryTable, caller: UserId,
                               category: string, month: string, year: string): (r: Compared)
    requires budgets.Valid() && txs.Valid()
    reads budgets, txs, categories
    ensures r.outcome == BadRequest <==> ParamsMissing(category, month, year)
    ensures r.outcome == ServerError <==> !ParamsMissing(category, month, year) && ParamsUnparsed(category, month, year)
    ensures r.outcome == Ok <==> !ParamsMissing(category, month, year) && !ParamsUnparsed(category, month, year)
    ensures r.outcome == Ok <==> r.summary.Some?
    ensures r.summary.Some? ==>
      r.summary.value == BudgetVsSpending(budgets, txs, categories, caller, Param(category).value,
                                          Param(month).value, Param(year).value)
    ensures r.summary.Some? ==>
      && r.summary.value.category == Param(category).value
      && r.summary.value.month == Param(month).value && r.summary.value.year == Param(year).value
      && r.summary.value.remaining == r.summary.value.limit - r.summary.value.spent
      && (!r.summary.value.budgetSet ==> r.summary.value.limit == 0.0)
  {
    if ParamsMissing(category, month, year) then Compared(BadRequest, None)
    else if ParamsUnparsed(category, month, year) then Compared(ServerError, None)
    else
      Compared(Ok, Some(BudgetVsSpending(budgets, txs, categories, caller, Param(category).value,
                                         Param(month).value, Param(year).value)))
  }

  /** A budget set through setBudget from numbers is what getBudget then
      answers for the same key written in the route. From 1e21 up, String
      writes a category id with an exponent and parseInt keeps only its
      first digit (ParseIntOfLargeNumbers), so the id is bounded here. */
  method SetThenGet(budgets: BudgetTable, caller: UserId, category: nat, month: nat, year: nat, limit: Money)
    returns (found: Found)
    requires budgets.Valid() && 0 < category < 1_000_000_000_000_000_000_000
    requires 1 <= month <= 12 && 2020 <= year <= 2030 && limit > 0.0
    modifies budgets
    ensures found.outcome == Ok && found.budget == Some(Budget(caller, category, month, year, limit))
  {
    var c, m, y, l := Num(category as real), Num(month as real), Num(year as real), Num(limit);
    assert PlainForm(category as real) && PlainForm(month as real) && PlainForm(year as real);
    assert Truncate(category as real) == category && Truncate(month as real) == month && Truncate(year as real) == year;
    assert ParseInt(c, true) == Int(category) && ParseInt(m, true) == Int(month) && ParseInt(y, true) == Int(year);
    assert ParseFloat(l) == Some(limit) && ToNumber(l) == Some(limit);
    assert !SetBudgetRejected(c, m, y, l) && !SetBudgetUnparsed(c, m, y, l);
    var o := SetBudget(budgets, caller, c, m, y, l);
    var k := budgets.Find(caller, category, month, year).value;
    assert budgets.rows[k] == Budget(caller, category, month, year, limit);
    ParamOfDecimal(category);
    ParamOfDecimal(month);
    ParamOfDecimal(year);
    found := GetBudget(budgets, caller, DecimalText(category), DecimalText(month), DecimalText(year));
  }
}
