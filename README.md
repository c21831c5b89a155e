# Employee salary management: a verified model

This project models the business logic of a small employee-salary web
application: two records, `Designation` (a job grade with a basic salary,
three allowance percentages and a bonus) and `Employee` (a person with
overtime hours linked to one designation), the salary calculator defined on
`Employee` (`hra`, `da`, `ta`, `overtime`, `gross_salary`), and the two
request handlers: employee intake (`add_employee`) and the salary report
(`salary_report`).

- `wrappers.dfy`: `Option` (a nullable column or an optional form field) and
  `Result` (an operation the source can abort by raising).
- `models.dfy` (module `Models`): the records as datatypes and the calculator
  as functions. Decimals are exact `real`s. An allowance applies only when the
  designation exists and both its percent and the basic salary are truthy in
  Python's sense (present and non-zero). A None that reaches `+` or `*` raises
  a `TypeError` in the source; here it is a `Failure` naming the null column.
- `views.dfy` (module `Views`): the database is a `Store` class holding the
  designation rows and employee rows as sequences. `AddEmployee` validates a
  submitted form and appends exactly one row on success; its result is
  specified by the function `Intake`. The report is the function
  `SalaryReport` over the two sequences. Form strings become numbers through
  an ASCII numeral parse (`ParseNatural`), whose partner `Numeral` renders a
  number back.

Null handling in the calculator is not uniform, and the model keeps it so:

- A None basic salary or None overtime hours is not read as zero.
  `gross_salary` adds `basic_salary` without a fallback
  (myProject/myApp/models.py:51) and `overtime` multiplies `overtime_hours`
  directly (myProject/myApp/models.py:45), so a None in either raises.
  `Models.GrossSalary` returns `Failure(NullBasicSalary)` or
  `Failure(NullOvertimeHours)`; the basic salary is checked first, as Python
  evaluates the sum from the left. Only the bonus falls back to 0
  (myProject/myApp/models.py:55).
- The report filters only when the `designation` parameter is truthy, so an
  empty parameter lists every employee (myProject/myApp/views.py:39).

## Model

| member | source | states |
|---|---|---|
| `Models.AllowanceAmount` | myProject/myApp/models.py:29-42 | The rule shared by HRA, DA and TA is 0 exactly when there is no designation, or its percent is null or zero, or the basic salary is null or zero |
| `Models.Hra` | myProject/myApp/models.py:29-32 | HRA is non-zero exactly when a designation is linked whose HRA percent and basic salary are both non-null and non-zero |
| `Models.Da` | myProject/myApp/models.py:34-37 | DA is non-zero exactly when a designation is linked whose DA percent and basic salary are both non-null and non-zero |
| `Models.Ta` | myProject/myApp/models.py:39-42 | TA is non-zero exactly when a designation is linked whose TA percent and basic salary are both non-null and non-zero |
| `Models.AllowanceOfPresentFields` | myProject/myApp/models.py:29-42 | When the percent and the basic salary are both present, the allowance is exactly percent / 100 * basic, including when either is zero |
| `Models.AllowanceBounds` | myProject/myApp/models.py:29-42 | With non-negative fields an allowance is non-negative, and at most the basic salary when its percent is at most 100 |
| `Models.WithoutDesignation` | myProject/myApp/models.py:29-49 | An employee with no designation gets HRA, DA and TA of 0 and a gross salary of 0 |
| `Models.OvertimePerHour` | myProject/myApp/models.py:44-45 | Overtime pay is 100 times the hours, non-negative for non-negative hours, and one more hour adds exactly 100 |
| `Models.Overtime` | myProject/myApp/models.py:44-45 | Overtime raises exactly when the hours are null, with the null-hours error; otherwise it is non-negative for non-negative hours |
| `Models.BonusOrZero` | myProject/myApp/models.py:55 | `bonus or 0` is the bonus when present and 0 when null |
| `Models.GrossSalary` | myProject/myApp/models.py:47-57 | No designation gives 0; the gross salary raises exactly when a designation is linked and its basic salary or the employee's overtime hours are null; a null basic salary is the error reported when both are null |
| `Models.GrossSalaryFormula` | myProject/myApp/models.py:47-57 | Whenever a designation, its basic salary and the hours are present, gross = B + H/100*B + D/100*B + T/100*B + bonus + 100*hours in exact arithmetic, with a null percent or null bonus counting as 0 |
| `Models.NullBonusIsZero` | myProject/myApp/models.py:55 | A null bonus gives the same gross salary as a bonus of 0 |
| `Models.GrossAtLeastBasic` | myProject/myApp/models.py:29-57 | With non-negative fields and hours and a present basic salary, the gross salary is defined and at least basic salary plus overtime pay |
| `Models.ManagerGrossSalary` | myProject/myApp/models.py:29-57 | Basic 1000, HRA 10%, DA 5%, TA 0, bonus 50 and 2 overtime hours give HRA 100, DA 50, TA 0, overtime 200 and gross 1400 |
| `Views.ParseNatural` | myProject/myApp/views.py:16 | A string parses to a number exactly when it is a non-empty string of digits |
| `Views.ParseNumeral` | myProject/myApp/views.py:16 | Parsing the decimal numeral of any number gives that number back |
| `Views.LeadingZero` | myProject/myApp/views.py:16 | A leading zero does not change the value of a digit string |
| `Views.NumeralOfParse` | myProject/myApp/views.py:16 | A numeral without leading zeros is the rendering of its parsed value; with LeadingZero this fixes the value of every digit string |
| `Views.ParseOvertime` | myProject/myApp/views.py:15-16 | An absent field gives 0 (the default "0"); a non-numeral, the empty string included, gives 0; a numeral gives its decimal value |
| `Views.ParseOvertimeCases` | myProject/myApp/views.py:15-16 | "" and "abc" give 0, "12" gives 12, "007" gives 7, and the numeral of any n gives n |
| `Views.FindDesignation` | myProject/myApp/views.py:13 | The lookup returns a stored designation with the requested key, or None only when no stored designation has that key |
| `Views.FindStoredDesignation` | myProject/myApp/views.py:13 | With unique keys, looking up a stored designation's key returns that designation |
| `Views.Intake` | myProject/myApp/views.py:9-23 | Missing or empty designation key fails with MissingDesignation; success holds exactly when the key resolves to a stored designation; a non-numeral key fails as malformed, an unmatched numeral as unknown; the new employee carries the submitted name and contact, the parsed overtime and the resolved designation |
| `Views.Store.AddEmployee` | myProject/myApp/views.py:4-27 | On failure neither collection changes; on success exactly the new employee is appended with a fresh key; designations never change; key uniqueness and the stored-designation link are preserved |
| `Views.FilterByDesignation` | myProject/myApp/views.py:39-40 | Every employee kept has the filtered designation key and is stored; every stored employee with that key is kept; employees without a designation are dropped |
| `Views.FilterAppend` | myProject/myApp/views.py:40 | Filtering a concatenation is the concatenation of the filtered parts, so the filter keeps store order |
| `Views.SalaryReport` | myProject/myApp/views.py:34-45 | An absent or empty filter lists all employees; a numeral filter lists exactly the stored employees whose designation has that key; a non-numeral filter fails; the full designation list is always returned |
| `Views.IntakeThenReport` | myProject/myApp/views.py:18-40 | An employee created by intake appears last in the report filtered by the designation key it was submitted with, after the earlier matches |

## Left out

- Django plumbing: the ORM query objects, requests and responses, `render`, `redirect` and the templates. Row reads are sequence reads; a row insert is an append to `Store.employees`.
- The GET branch of `add_employee` only renders the form with the designation list; it has no logic and is not modelled.
- The report page's per-row salary figures are computed by the template calling the `Employee` methods; the model gives those methods (`Models.Hra`, `Models.Da`, `Models.Ta`, `Models.Overtime`, `Models.GrossSalary`) and the report returns the rows.
- `__str__` of both records: display only.
- Column limits (`max_digits`, `decimal_places`, `max_length`) and the rounding of Python's decimal context: amounts are exact reals.
- Key and numeral parsing: only ASCII digits are numerals. Non-ASCII digits that `str.isdigit` accepts are not modelled. Spellings that Python's `int()` accepts for a designation key or report filter (a sign, surrounding spaces, underscores) are treated as non-numerals.
- Views.SalaryReport: a non-numeral filter is a `Failure`; in the source it is an uncaught `ValueError`, that is, a server error rather than a page.
- `on_delete=PROTECT`: there is no delete operation. The store invariant says every employee's designation is a stored row.
- Row identity: an employee holds its designation row as a value, not a reference. No operation updates a designation, so this makes no difference. Employee keys are handed out by a counter in place of the database's auto-increment.
- Row order: the database's unspecified order is the store's sequence order.
- The read-then-write race between the designation lookup and the insert: concurrency is out of scope.
