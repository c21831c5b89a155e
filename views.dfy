/**
 * The two request handlers: employee intake (`add_employee`) and the salary
 * report (`salary_report`). The database is a store holding the designation
 * rows and the employee rows as sequences; a lookup by id is a search of the
 * sequence and a row insert is an append.
 */
module Views {
  import opened Wrappers
  import opened Models

  // ---------------------------------------------------------------------
  // Decimal numerals: `str.isdigit` followed by `int`, restricted to ASCII.
  // ---------------------------------------------------------------------

  predicate IsAsciiDigit(c: char) {
    '0' as int <= c as int <= '9' as int
  }

  /** `s.isdigit()`: non-empty and made of digits only. */
  predicate IsNumeral(s: string) {
    |s| > 0 && forall i :: 0 <= i < |s| ==> IsAsciiDigit(s[i])
  }

  /** The value of a string of digits, read most significant digit first. */
  function DigitsValue(s: string): nat
    requires forall i :: 0 <= i < |s| ==> IsAsciiDigit(s[i])
  {
    if s == [] then 0
    else
      var last := s[|s| - 1];
      assert IsAsciiDigit(last);
      DigitsValue(s[..|s| - 1]) * 10 + (last as int - '0' as int)
  }

  /** `int(s) if s.isdigit()`, or None when `s` is not a numeral. */
  function ParseNatural(s: string): (r: Option<nat>)
    ensures r.Some? <==> IsNumeral(s)
  {
    if IsNumeral(s) then Some(DigitsValue(s)) else None
  }

  /** The decimal numeral of `n`, without leading zeros: the partner of ParseNatural. */
  function Numeral(n: nat): (s: string)
    ensures IsNumeral(s)
    ensures s[0] == '0' ==> n == 0
  {
    var last := [('0' as int + n % 10) as char];
    if n < 10 then last else Numeral(n / 10) + last
  }

  /** Parsing the numeral of a number gives the number back. */
  lemma {:induction false} ParseNumeral(n: nat)
    ensures ParseNatural(Numeral(n)) == Some(n)
  {
    var s := Numeral(n);
    if n < 10 {
      assert s[..|s| - 1] == [];
    } else {
      ParseNumeral(n / 10);
      assert s[..|s| - 1] == Numeral(n / 10);
    }
    assert DigitsValue(s) == DigitsValue(s[..|s| - 1]) * 10 + n % 10;
  }

  /** A leading zero does not change the value of a digit string: `int("07") == int("7")`. */
  lemma {:induction false} LeadingZero(s: string)
    requires forall i :: 0 <= i < |s| ==> IsAsciiDigit(s[i])
    ensures DigitsValue("0" + s) == DigitsValue(s)
  {
    var z := "0" + s;
    if s == [] {
      assert z[..|z| - 1] == [];
    } else {
      assert z[..|z| - 1] == "0" + s[..|s| - 1];
      LeadingZero(s[..|s| - 1]);
    }
  }

  /** A digit string that does not start with '0' has a positive value. */
  lemma {:induction false} NoLeadingZeroIsPositive(s: string)
    requires IsNumeral(s) && s[0] != '0'
    ensures DigitsValue(s) > 0
  {
    if |s| > 1 {
      NoLeadingZeroIsPositive(s[..|s| - 1]);
    }
  }

  /**
   * Rendering the value of a numeral without leading zeros gives the numeral
   * back. With LeadingZero this fixes the value of every digit string: its
   * leading zeros are dropped and the rest is the numeral of its value.
   */
  lemma {:induction false} NumeralOfParse(s: string)
    requires IsNumeral(s) && (|s| == 1 || s[0] != '0')
    ensures ParseNatural(s).Some? && Numeral(ParseNatural(s).value) == s
  {
    var p, c := s[..|s| - 1], s[|s| - 1];
    assert s == p + [c];
    if |s| > 1 {
      NoLeadingZeroIsPositive(p);
      NumeralOfParse(p);
      assert DigitsValue(s) / 10 == DigitsValue(p);
    } else {
      assert p == [];
      var d := c as int - '0' as int;
      assert DigitsValue(s) == d < 10;
      assert Numeral(d) == [('0' as int + d) as char] == [c];
    }
  }

  /**
   * The overtime field of the intake form: absent means "0"; a numeral gives
   * its value; anything else, the empty string included, gives 0.
   */
  function ParseOvertime(field: Option<string>): (r: nat)
    ensures field.None? ==> r == 0
    ensures field.Some? && !IsNumeral(field.value) ==> r == 0
    ensures field.Some? && IsNumeral(field.value) ==> r == DigitsValue(field.value)
  {
    match ParseNatural(field.GetOr("0"))
    case Some(n) => n
    case None => 0
  }

  /** What intake stores as overtime hours for a few submitted values, and for the numeral of any n. */
  lemma ParseOvertimeCases()
    ensures ParseOvertime(Some("")) == 0 && ParseOvertime(Some("abc")) == 0
    ensures ParseOvertime(Some("12")) == 12 && ParseOvertime(Some("007")) == 7
    ensures forall n: nat :: ParseOvertime(Some(Numeral(n))) == n
  {
    assert !IsAsciiDigit("abc"[0]);
    assert "12"[..1] == "1";
    assert "007"[..2] == "00" && "00"[..1] == "0" && "0"[..0] == [];
    assert DigitsValue("0") == 0 && DigitsValue("00") == 0;
    assert DigitsValue("007") == 7;
    forall n: nat
      ensures ParseOvertime(Some(Numeral(n))) == n
    {
      ParseNumeral(n);
    }
  }

  // ---------------------------------------------------------------------
  // Designation lookup: `Designation.objects.get(id=...)`.
  // ---------------------------------------------------------------------

  /** Primary keys are unique. */
  predicate UniqueIds(ds: seq<Designation>) {
    forall i, j :: 0 <= i < j < |ds| ==> ds[i].id != ds[j].id
  }

  /** The stored designation with key `id`, or None when no row has it. */
  function FindDesignation(ds: seq<Designation>, id: nat): (r: Option<Designation>)
    ensures r.Some? ==> r.value in ds && r.value.id == id
    ensures r.None? ==> forall d :: d in ds ==> d.id != id
  {
    if ds == [] then None
    else if ds[0].id == id then Some(ds[0])
    else FindDesignation(ds[1..], id)
  }

  /** With unique keys the lookup returns the one row that has the key. */
  lemma FindStoredDesignation(ds: seq<Designation>, d: Designation)
    requires UniqueIds(ds) && d in ds
    ensures FindDesignation(ds, d.id) == Some(d)
  {
  }

  // ---------------------------------------------------------------------
  // Intake.
  // ---------------------------------------------------------------------

  /** The fields of the POSTed intake form; None is a field that was not sent. */
  datatype IntakeForm = IntakeForm(
    designation: Option<string>,
    name: Option<string>,
    contact: Option<string>,
    overtimeHours: Option<string>)

  /**
   * Why intake creates nothing. The handler catches all three and shows the
   * form again; the reason is made explicit here.
   */
  datatype IntakeError =
    | MissingDesignation       // no `designation` field, or an empty one
    | MalformedDesignationId   // the key is not a numeral, so the lookup raises ValueError
    | UnknownDesignation       // no designation row has the key

  /** The submitted designation key names a stored designation. */
  predicate Resolves(ds: seq<Designation>, key: Option<string>) {
    key.Some? && exists d :: d in ds && ParseNatural(key.value) == Some(d.id)
  }

  /**
   * Validation and the row intake creates, as id `id`: the designation key
   * must be present, non-empty and resolve to a stored designation; the new
   * employee carries the submitted name and contact, the parsed overtime and
   * the resolved designation.
   */
  function Intake(ds: seq<Designation>, form: IntakeForm, id: nat): (r: Result<Employee, IntakeError>)
    ensures form.designation.None? || form.designation == Some("") ==> r == Failure(MissingDesignation)
    ensures r.Success? <==> Resolves(ds, form.designation)
    ensures r.Failure? && form.designation.Some? && form.designation.value != "" ==>
      r.error == (if IsNumeral(form.designation.value) then UnknownDesignation else MalformedDesignationId)
    ensures r.Success? ==>
      && r.value.id == id
      && r.value.name == form.name
      && r.value.contact == form.contact
      && r.value.overtimeHours == Some(ParseOvertime(form.overtimeHours))
      && r.value.designation.Some?
      && r.value.designation.value in ds
      && ParseNatural(form.designation.value) == Some(r.value.designation.value.id)
  {
    match form.designation
    case None => Failure(MissingDesignation)
    case Some(key) =>
      if key == "" then Failure(MissingDesignation)
      else
        match ParseNatural(key)
        case None => Failure(MalformedDesignationId)
        case Some(designationId) =>
          match FindDesignation(ds, designationId)
          case None => Failure(UnknownDesignation)
          case Some(d) =>
            Success(Employee(id, form.name, Some(ParseOvertime(form.overtimeHours)), form.contact, Some(d)))
  }

  /** The database: designation rows, employee rows and the next employee key. */
  class Store {
    var designations: seq<Designation>
    var employees: seq<Employee>
    var nextEmployeeId: nat

    /**
     * Keys are unique and every employee key was handed out already; an
     * employee's designation is a stored row (the protected foreign key).
     */
    ghost predicate Valid()
      reads this
    {
      && UniqueIds(designations)
      && (forall i :: 0 <= i < |employees| ==> employees[i].id < nextEmployeeId)
      && (forall i, j :: 0 <= i < j < |employees| ==> employees[i].id != employees[j].id)
      && (forall i :: 0 <= i < |employees| && employees[i].designation.Some? ==>
            employees[i].designation.value in designations)
    }

    /** A store with the given designations and no employees yet. */
    constructor (ds: seq<Designation>)
      requires UniqueIds(ds)
      ensures Valid()
      ensures designations == ds && employees == [] && nextEmployeeId == 0
    {
      designations := ds;
      employees := [];
      nextEmployeeId := 0;
    }

    /**
     * `add_employee` on a POST: validate, then create one employee row. On
     * failure nothing changes; on success exactly the new row is appended.
     * The designation rows never change.
     */
    method AddEmployee(form: IntakeForm) returns (r: Result<Employee, IntakeError>)
      requires Valid()
      modifies this
      ensures Valid()
      ensures r == Intake(old(designations), form, old(nextEmployeeId))
      ensures designations == old(designations)
      ensures r.Failure? ==> employees == old(employees) && nextEmployeeId == old(nextEmployeeId)
      ensures r.Success? ==> employees == old(employees) + [r.value] && nextEmployeeId == old(nextEmployeeId) + 1
    {
      r := Intake(designations, form, nextEmployeeId);
      if r.Success? {
        employees := employees + [r.value];
        nextEmployeeId := nextEmployeeId + 1;
      }
    }
  }

  // ---------------------------------------------------------------------
  // Salary report.
  // ---------------------------------------------------------------------

  /** The employee's designation has key `id`; employees without one never match. */
  predicate HasDesignation(e: Employee, id: nat) {
    e.designation.Some? && e.designation.value.id == id
  }

  /** `employees.filter(designation__id=id)`, keeping the store's order. */
  function FilterByDesignation(es: seq<Employee>, id: nat): (r: seq<Employee>)
    ensures |r| <= |es|
    ensures forall e :: e in r ==> e in es && HasDesignation(e, id)
    ensures forall e :: e in es && HasDesignation(e, id) ==> e in r
  {
    if es == [] then []
    else
      var rest := FilterByDesignation(es[1..], id);
      if HasDesignation(es[0], id) then [es[0]] + rest else rest
  }

  /** Filtering a concatenation filters each part in turn: the filter keeps the store's order. */
  lemma {:induction false} FilterAppend(a: seq<Employee>, b: seq<Employee>, id: nat)
    ensures FilterByDesignation(a + b, id) == FilterByDesignation(a, id) + FilterByDesignation(b, id)
  {
    if a != [] {
      assert (a + b)[0] == a[0];
      assert (a + b)[1..] == a[1..] + b;
      FilterAppend(a[1..], b, id);
      if HasDesignation(a[0], id) {
        assert FilterByDesignation(a + b, id) == [a[0]] + FilterByDesignation(a[1..] + b, id);
      }
    } else {
      assert a + b == b;
    }
  }

  /** What the report page shows: the employees listed and every designation, for the filter control. */
  datatype Report = Report(employees: seq<Employee>, designations: seq<Designation>)

  /** A non-empty filter that is not a numeral: the filter raises ValueError and no page is produced. */
  datatype ReportError = MalformedFilter

  /**
   * `salary_report`: with a non-empty filter only the employees whose
   * designation has that key, otherwise all of them; always every designation.
   */
  function SalaryReport(ds: seq<Designation>, es: seq<Employee>, filter: Option<string>): (r: Result<Report, ReportError>)
    ensures filter.None? || filter == Some("") ==> r == Success(Report(es, ds))
    ensures r.Failure? <==> filter.Some? && filter.value != "" && !IsNumeral(filter.value)
    ensures r.Success? ==> r.value.designations == ds && |r.value.employees| <= |es|
    ensures r.Success? && filter.Some? && filter.value != "" ==>
      && IsNumeral(filter.value)
      && forall e :: e in r.value.employees <==> e in es && HasDesignation(e, ParseNatural(filter.value).value)
  {
    match filter
    case None => Success(Report(es, ds))
    case Some(key) =>
      if key == "" then Success(Report(es, ds))
      else
        match ParseNatural(key)
        case None => Failure(MalformedFilter)
        case Some(id) => Success(Report(FilterByDesignation(es, id), ds))
  }

  /**
   * An employee that intake accepted shows up last in the report filtered by
   * the designation key it was submitted with, after the earlier matches.
   */
  lemma IntakeThenReport(ds: seq<Designation>, es: seq<Employee>, form: IntakeForm, id: nat)
    requires Intake(ds, form, id).Success?
    ensures var e := Intake(ds, form, id).value;
      SalaryReport(ds, es + [e], form.designation)
        == Success(Report(FilterByDesignation(es, e.designation.value.id) + [e], ds))
  {
    var e := Intake(ds, form, id).value;
    var key := e.designation.value.id;
    FilterAppend(es, [e], key);
    assert FilterByDesignation([e], key) == [e];
  }
}
