/**
 * The salary calculator of the two records `Designation` and `Employee`.
 *
 * Amounts and percentages are decimals in the source; here they are exact
 * reals. Every nullable column is an `Option`. Python's truthiness of a
 * decimal (None and zero are false) decides whether an allowance applies,
 * and a None that reaches an arithmetic operator raises a TypeError, which
 * is a `Failure` here.
 */
module Models {
  import opened Wrappers

  /** A job grade: base pay and the percentages its allowances are paid at. */
  datatype Designation = Designation(
    id: nat,
    name: Option<string>,
    basicSalary: Option<real>,
    hraPercent: Option<real>,
    daPercent: Option<real>,
    taPercent: Option<real>,
    bonus: Option<real>)

  /** An employee; `designation` is the resolved foreign key, if any. */
  datatype Employee = Employee(
    id: nat,
    name: Option<string>,
    overtimeHours: Option<int>,
    contact: Option<string>,
    designation: Option<Designation>)

  /** The three percentage-of-basic allowances: house rent, dearness and travel. */
  datatype Allowance = HouseRent | Dearness | Travel

  /** The None that a salary computation trips over. */
  datatype CalcError = NullBasicSalary | NullOvertimeHours

  /** Pay per overtime hour. */
  const OVERTIME_RATE: int := 100

  /** Python truthiness of a nullable decimal. */
  predicate Truthy(x: Option<real>) {
    x.Some? && x.value != 0.0
  }

  function PercentOf(d: Designation, a: Allowance): Option<real> {
    match a
    case HouseRent => d.hraPercent
    case Dearness => d.daPercent
    case Travel => d.taPercent
  }

  /** The guard of `hra`, `da` and `ta`: a designation, a truthy percent and a truthy basic salary. */
  predicate Applies(e: Employee, a: Allowance) {
    && e.designation.Some?
    && Truthy(PercentOf(e.designation.value, a))
    && Truthy(e.designation.value.basicSalary)
  }

  /**
   * The rule `hra`, `da` and `ta` share: percent / 100 * basic salary, or 0.
   * The amount is zero exactly when the guard fails, since a non-zero
   * percent of a non-zero salary is never zero.
   */
  function AllowanceAmount(e: Employee, a: Allowance): (r: real)
    ensures r == 0.0 <==> !Applies(e, a)
  {
    if Applies(e, a) then
      var d := e.designation.value;
      PercentOf(d, a).value / 100.0 * d.basicSalary.value
    else
      0.0
  }

  /** `hra`: non-zero exactly with a designation whose HRA percent and basic salary are both truthy. */
  function Hra(e: Employee): (r: real)
    ensures r != 0.0 <==>
      e.designation.Some? && Truthy(e.designation.value.hraPercent) && Truthy(e.designation.value.basicSalary)
  {
    AllowanceAmount(e, HouseRent)
  }

  /** `da`: non-zero exactly with a designation whose DA percent and basic salary are both truthy. */
  function Da(e: Employee): (r: real)
    ensures r != 0.0 <==>
      e.designation.Some? && Truthy(e.designation.value.daPercent) && Truthy(e.designation.value.basicSalary)
  {
    AllowanceAmount(e, Dearness)
  }

  /** `ta`: non-zero exactly with a designation whose TA percent and basic salary are both truthy. */
  function Ta(e: Employee): (r: real)
    ensures r != 0.0 <==>
      e.designation.Some? && Truthy(e.designation.value.taPercent) && Truthy(e.designation.value.basicSalary)
  {
    AllowanceAmount(e, Travel)
  }

  /** `overtime_hours * 100`; it raises exactly when the hours are None. */
  function Overtime(e: Employee): (r: Result<int, CalcError>)
    ensures r.Failure? <==> e.overtimeHours.None?
    ensures r.Failure? ==> r.error == NullOvertimeHours
    ensures r.Success? && e.overtimeHours.value >= 0 ==> r.value >= 0
  {
    match e.overtimeHours
    case None => Failure(NullOvertimeHours)
    case Some(h) => Success(h * OVERTIME_RATE)
  }

  /** `bonus or 0`: the bonus when present, 0 for None; a zero bonus gives 0 either way. */
  function BonusOrZero(d: Designation): (r: real)
    ensures r == d.bonus.GetOr(0.0)
  {
    if Truthy(d.bonus) then d.bonus.value else 0.0
  }

  /**
   * `gross_salary`: 0 without a designation; otherwise the basic salary plus
   * the three allowances, the bonus and the overtime pay. The basic salary is
   * added without a fallback, so a None there raises before the overtime is
   * looked at; a None overtime then raises too.
   */
  function GrossSalary(e: Employee): (r: Result<real, CalcError>)
    ensures e.designation.None? ==> r == Success(0.0)
    ensures r.Failure? <==>
      e.designation.Some? && (e.designation.value.basicSalary.None? || e.overtimeHours.None?)
    ensures r == Failure(NullBasicSalary) <==>
      e.designation.Some? && e.designation.value.basicSalary.None?
  {
    match e.designation
    case None => Success(0.0)
    case Some(d) =>
      if d.basicSalary.None? then
        Failure(NullBasicSalary)
      else
        match Overtime(e)
        case Failure(err) => Failure(err)
        case Success(pay) =>
          Success(d.basicSalary.value + Hra(e) + Da(e) + Ta(e) + BonusOrZero(d) + pay as real)
  }

  /** Every amount and percentage of the designation that is present is non-negative. */
  predicate NonNegative(d: Designation) {
    && (d.basicSalary.Some? ==> d.basicSalary.value >= 0.0)
    && (d.hraPercent.Some? ==> d.hraPercent.value >= 0.0)
    && (d.daPercent.Some? ==> d.daPercent.value >= 0.0)
    && (d.taPercent.Some? ==> d.taPercent.value >= 0.0)
    && (d.bonus.Some? ==> d.bonus.value >= 0.0)
  }

  /**
   * When the percent and the basic salary are both present, the truthiness
   * guard makes no difference: the allowance is percent / 100 * basic even
   * when one of them is zero.
   */
  lemma AllowanceOfPresentFields(e: Employee, a: Allowance)
    requires e.designation.Some?
    requires PercentOf(e.designation.value, a).Some? && e.designation.value.basicSalary.Some?
    ensures AllowanceAmount(e, a)
      == PercentOf(e.designation.value, a).value / 100.0 * e.designation.value.basicSalary.value
  {
  }

  /** With non-negative fields an allowance is non-negative, and at most the basic salary when its percent is at most 100. */
  lemma AllowanceBounds(e: Employee, a: Allowance)
    requires e.designation.Some? && NonNegative(e.designation.value)
    ensures AllowanceAmount(e, a) >= 0.0
    ensures Applies(e, a) && PercentOf(e.designation.value, a).value <= 100.0 ==>
      AllowanceAmount(e, a) <= e.designation.value.basicSalary.value
  {
  }

  /** An employee without a designation earns nothing: no allowance and a gross salary of 0. */
  lemma WithoutDesignation(e: Employee)
    requires e.designation.None?
    ensures Hra(e) == 0.0 && Da(e) == 0.0 && Ta(e) == 0.0
    ensures GrossSalary(e) == Success(0.0)
  {
  }

  /** Overtime pay is the rate (100) per hour: non-negative for non-negative hours, and one more hour adds exactly the rate. */
  lemma OvertimePerHour(e: Employee, h: int)
    requires e.overtimeHours == Some(h)
    ensures Overtime(e).Success? && Overtime(e).value == OVERTIME_RATE * h
    ensures h >= 0 ==> Overtime(e).value >= 0
    ensures Overtime(e.(overtimeHours := Some(h + 1))) == Success(Overtime(e).value + OVERTIME_RATE)
  {
  }

  /**
   * The reference formula whenever the sum is defined (a designation, its
   * basic salary and the hours present): gross = B + H/100*B + D/100*B +
   * T/100*B + bonus + rate*hours in exact arithmetic, where a None percent or
   * bonus counts as 0.
   */
  lemma GrossSalaryFormula(e: Employee, d: Designation, basic: real, hours: int)
    requires e.designation == Some(d) && d.basicSalary == Some(basic) && e.overtimeHours == Some(hours)
    ensures GrossSalary(e) ==
      Success(basic + d.hraPercent.GetOr(0.0) / 100.0 * basic + d.daPercent.GetOr(0.0) / 100.0 * basic
        + d.taPercent.GetOr(0.0) / 100.0 * basic + d.bonus.GetOr(0.0) + (OVERTIME_RATE * hours) as real)
  {
    if d.hraPercent.Some? { AllowanceOfPresentFields(e, HouseRent); }
    if d.daPercent.Some? { AllowanceOfPresentFields(e, Dearness); }
    if d.taPercent.Some? { AllowanceOfPresentFields(e, Travel); }
    assert Hra(e) == d.hraPercent.GetOr(0.0) / 100.0 * basic;
    assert Da(e) == d.daPercent.GetOr(0.0) / 100.0 * basic;
    assert Ta(e) == d.taPercent.GetOr(0.0) / 100.0 * basic;
    assert BonusOrZero(d) == d.bonus.GetOr(0.0);
    OvertimePerHour(e, hours);
  }

  /** A None bonus contributes 0: it gives the same gross salary as a bonus of 0. */
  lemma NullBonusIsZero(e: Employee)
    requires e.designation.Some? && e.designation.value.bonus.None?
    ensures GrossSalary(e) == GrossSalary(e.(designation := Some(e.designation.value.(bonus := Some(0.0)))))
  {
    var e' := e.(designation := Some(e.designation.value.(bonus := Some(0.0))));
    assert Hra(e') == Hra(e) && Da(e') == Da(e) && Ta(e') == Ta(e);
  }

  /**
   * With non-negative fields and hours the gross salary is defined and at
   * least the basic salary plus the overtime pay.
   */
  lemma GrossAtLeastBasic(e: Employee)
    requires e.designation.Some? && NonNegative(e.designation.value)
    requires e.designation.value.basicSalary.Some?
    requires e.overtimeHours.Some? && e.overtimeHours.value >= 0
    ensures GrossSalary(e).Success?
    ensures GrossSalary(e).value >= e.designation.value.basicSalary.value + (OVERTIME_RATE * e.overtimeHours.value) as real
  {
  }

  /** A worked example: a Manager grade with basic 1000, HRA 10%, DA 5%, no TA and bonus 50; two hours of overtime. */
  function ManagerEmployee(): Employee {
    var manager := Designation(1, Some("Manager"), Some(1000.0), Some(10.0), Some(5.0), Some(0.0), Some(50.0));
    Employee(1, None, Some(2), None, Some(manager))
  }

  /** Worked case: basic 1000, 10% HRA, 5% DA, no TA, bonus 50, 2 hours give 1000 + 100 + 50 + 0 + 50 + 200 = 1400. */
  lemma ManagerGrossSalary()
    ensures Hra(ManagerEmployee()) == 100.0
    ensures Da(ManagerEmployee()) == 50.0
    ensures Ta(ManagerEmployee()) == 0.0
    ensures Overtime(ManagerEmployee()) == Success(200)
    ensures GrossSalary(ManagerEmployee()) == Success(1400.0)
  {
  }
}
