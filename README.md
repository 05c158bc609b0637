# Loan-Tracker domain model in Dafny

This project models the loan and payment logic of Loan-Tracker, a React
micro-lending tracker, and proves properties of the model. It has three parts:

- **The client-side entity store** (`DataContext.Store`). It is a class with three
  `seq` fields: `customers`, `loans` and `payments`.
  - Each handler of `src/contexts/DataContext.jsx` is a method.
  - Each method receives the remote store's answer as a parameter (`Reply`: failed,
    or the row the server returned). Its `ensures` states the request it would
    send and the exact new contents of the three collections.
  - The four-step customer-delete cascade takes one answer per step.
- **The calculators**:
  - interest, totals, loan status and id shapes (`LoanUtils`);
  - calendar arithmetic with JavaScript's `setMonth` overflow (`DateUtils`);
  - next-payment generation and classification (`LoanDetails`);
  - the due-payment filter, sort and status text (`DuePayments`);
  - monthly interest aggregation, month selection and counters (`Dashboard`);
  - the loan-card helpers (`LoanList`).
- **The form submitters** (`LoanForm`, `PaymentForm`, `CustomerForm`). Each
  `handleSubmit` is a function returning an `Outcome`: a rejection with its toast
  message, the record handed to `onSubmit`, or a `TypeError`. Each form's prefill
  is modelled too.

Supporting modules:
- `JsValues` models JavaScript values and plain objects: `Val` and `Obj = map<string, Val>`, where an absent key reads as `undefined`. It also models truthiness, `||`, `===`, numeric coercion, spread and JSON serialization.
- `Decimal` models decimal digits and `parseFloat`.
- `Text` models `trim`, `split` and the default string sort.
- `Rows` models the array operations the store and the views use: `filter`, `find`, replace-by-key `map` and sort by key.

The field-name mismatches between the views and the store rows are reproduced as
written, and their consequences are proved:
- The due-payments view reads `dueDate` and `customerId`, which store rows do not carry. So it never lists a store row (`DuePayments.StoreRowsNeverListed`), and names an unknown customer for a store loan (`DuePayments.StoreLoanCustomerUnknown`).
- A payment recorded through the payment form sends neither date to `handleUpdatePayment` (`PaymentForm.UpdateDropsDates`).

## Model

| member | source | states |
|---|---|---|
| DataContext.Store.constructor | src/contexts/DataContext.jsx:11-13 | the three collections start empty |
| DataContext.Store.AddCustomer | src/contexts/DataContext.jsx:42-62 | sends `CustomerInsert` of the data; on failure nothing changes and null is returned; on success exactly the returned row is appended to customers and returned; loans and payments untouched |
| DataContext.CustomerInsert | src/contexts/DataContext.jsx:43-48 | a supplied truthy id / created_at is kept, otherwise a generated customer id / the current time; `createdAt` is never sent |
| DataContext.CustomerInsertKeepsFields | src/contexts/DataContext.jsx:43-44 | every other field of the data is inserted unchanged |
| DataContext.Store.UpdateCustomer | src/contexts/DataContext.jsx:64-79 | sends `CustomerUpdate`; failure changes nothing; success replaces every cached customer with that id by the returned row, others stay in place |
| DataContext.CustomerUpdate | src/contexts/DataContext.jsx:65-67 | neither `created_at` nor `createdAt` is sent; every other field is sent unchanged |
| DataContext.Store.DeleteCustomer | src/contexts/DataContext.jsx:81-131 | the cache changes iff every step of the cascade succeeds (the loan-payments step only when the customer has loans); then customers, loans and payments become exactly the remaining ones |
| DataContext.RemainingCustomers | src/contexts/DataContext.jsx:123 | keeps exactly the customers whose id differs |
| DataContext.RemainingLoans | src/contexts/DataContext.jsx:124 | keeps exactly the loans of other customers |
| DataContext.RemainingPayments | src/contexts/DataContext.jsx:126-129 | keeps exactly the payments whose loan is cached, belongs to another customer, and whose own customer_id differs |
| DataContext.UncachedLoanPaymentDropped | src/contexts/DataContext.jsx:127-128 | a payment whose loan is not in the pre-delete cache is dropped |
| DataContext.SurvivorsKeepALoan | src/contexts/DataContext.jsx:124-128 | every surviving payment's loan is still in the loan cache |
| DataContext.CascadeLeavesNoTrace | src/contexts/DataContext.jsx:123-129 | no remaining customer, loan or payment refers to the deleted customer |
| DataContext.Store.AddLoan | src/contexts/DataContext.jsx:133-160 | for a customer id not in the cache nothing is sent and nothing changes; otherwise `LoanInsert` is sent and on success exactly the returned row is appended |
| DataContext.LoanInsert | src/contexts/DataContext.jsx:140-148 | camelCase fields land in their snake_case columns; status is the given truthy one, else 'ongoing'; id is the given truthy one, else a generated LOAN- id; created_at is the given truthy one, else the current time |
| DataContext.LoanInsertColumns | src/contexts/DataContext.jsx:140-148 | the inserted row has exactly the seven columns |
| DataContext.Store.UpdateLoan | src/contexts/DataContext.jsx:162-180 | sends `LoanUpdate`; failure changes nothing; success replaces the loans with that id by the returned row |
| DataContext.LoanUpdate | src/contexts/DataContext.jsx:163-169 | exactly the five columns, each value read from its camelCase field (customerId, loanAmount, interestRate, startDate, status) |
| DataContext.Store.CloseLoan | src/contexts/DataContext.jsx:182-193 | sends only status 'fully_paid'; failure changes nothing; success replaces the loans with that id by the returned row |
| DataContext.Store.AddPayment | src/contexts/DataContext.jsx:195-227 | for a loan id not in the cache nothing is sent and nothing changes; otherwise `PaymentInsert` with that loan is sent and on success the returned row is appended |
| DataContext.PaymentInsert | src/contexts/DataContext.jsx:201-210 | customer_id is the loan's; loan_id, amount and due_date come from the data; status and type are the given truthy ones, else 'pending' and 'interest'; id is the given truthy one, else a generated PAY- id; created_at is the given truthy one, else the current time |
| DataContext.PaymentInsertDate | src/contexts/DataContext.jsx:212-214 | payment_date is sent iff a truthy paymentDate is supplied, and then equals it |
| DataContext.Store.UpdatePayment | src/contexts/DataContext.jsx:229-248 | sends `PaymentUpdate`; failure changes nothing; success merges the returned row over each cached payment with that id |
| DataContext.PaymentUpdate | src/contexts/DataContext.jsx:230-236 | exactly the five columns; amount, status and type are the given ones; due_date and payment_date are read from dueDate and paymentDate |
| DataContext.MergeKeepsUnreturnedFields | src/contexts/DataContext.jsx:245 | a field the server does not return keeps its cached value; a returned one wins |
| DataContext.Store.GetLoanPayments | src/contexts/DataContext.jsx:250-252 | exactly the cached payments with that loan_id |
| DataContext.PaymentsOfLoan | src/components/LoanList.jsx:20-22 | exactly the payments with that loan_id |
| DataContext.PaymentsOfLoanAppend | src/contexts/DataContext.jsx:251 | the payments of a loan keep cache order: filtering a concatenation filters each part |
| LoanUtils.CalculateMonthlyInterest | src/utils/loanUtils.js:2-4 | amount times rate over 100 of the coerced numbers, unrounded; otherwise NaN |
| LoanUtils.MonthlyInterestPositive | src/utils/loanUtils.js:2-4 | positive amount and rate give positive interest; a 100 % rate gives the amount |
| LoanUtils.CalculateTotalInterestPaid | src/utils/loanUtils.js:6-10 | an empty list totals 0 |
| LoanUtils.TotalIsPaidSum | src/utils/loanUtils.js:6-10 | with numeric paid amounts the total is the sum over payments whose status is exactly 'paid' |
| LoanUtils.PaidSumAppend | src/utils/loanUtils.js:7-9 | appending a payment adds its amount iff it is paid |
| LoanUtils.AppendUnpaid | src/utils/loanUtils.js:7-9 | appending a payment that is not paid leaves the total unchanged |
| LoanUtils.CalculateRemainingBalance | src/utils/loanUtils.js:12-15 | 0 when fully paid, the loan amount otherwise, whatever interest was paid |
| LoanUtils.CountOverduePending | src/utils/loanUtils.js:32-34 | positive iff some payment is pending and due before now |
| LoanUtils.GetLoanStatus | src/utils/loanUtils.js:29-38 | one of the three strings; 'Fully Paid' whenever status is 'fully_paid' |
| LoanUtils.LoanStatusCases | src/utils/loanUtils.js:29-38 | 'Fully Paid' iff closed; 'Overdue' iff not closed and some pending payment is late; 'Active' iff neither |
| LoanUtils.OverduePendingMeaning | src/utils/loanUtils.js:33 | a payment counts iff it is pending and its due date is before today, or is today and the day has begun |
| LoanUtils.Token | src/utils/loanUtils.js:18 | at most nine characters, a prefix of the random digits |
| LoanUtils.GenerateId | src/utils/loanUtils.js:18 | the id starts with its prefix and a '-' and is longer than both |
| LoanUtils.GenerateLoanId | src/utils/loanUtils.js:17-19 | starts with 'LOAN-' and continues after it |
| LoanUtils.GenerateCustomerId | src/utils/loanUtils.js:21-23 | starts with 'CUST-' and continues after it |
| LoanUtils.GeneratePaymentId | src/utils/loanUtils.js:25-27 | starts with 'PAY-' and continues after it |
| LoanUtils.GeneratedIdSplits | src/utils/loanUtils.js:17-27 | a generated id splits back into its prefix, timestamp and token |
| LoanUtils.SplitGenerated | src/utils/loanUtils.js:18 | prefix, decimal timestamp and token joined by '-' split back into themselves |
| LoanUtils.GeneratedIdShapes | src/utils/loanUtils.js:17-27 | the loan, customer and payment ids have prefixes LOAN, CUST and PAY, the timestamp and the token, and are not empty |
| LoanUtils.GeneratedIdsDiffer | src/utils/loanUtils.js:17-27 | ids differing in prefix, time or token are different strings |
| DateUtils.DaysInMonth | src/utils/dateUtils.js:51 | month lengths lie between 28 and 31 |
| DateUtils.DayNumberMonotone | src/utils/dateUtils.js:23 | the day count orders dates as the calendar does |
| DateUtils.DayNumberInjective | src/utils/dateUtils.js:36 | distinct valid dates have distinct day counts |
| DateUtils.ParseDate | src/utils/dateUtils.js:47-48 | only valid YYYY-MM-DD strings parse |
| DateUtils.DateOf | src/utils/dateUtils.js:47 | `new Date(v)` for the values the store keeps in date fields: a string parses or is invalid, null is the epoch, and a parsed date is valid; other non-strings are taken as invalid (see Left out) |
| DateUtils.FormatIsoDate | src/utils/dateUtils.js:52 | a ten-character YYYY-MM-DD string for four-digit years |
| DateUtils.FormatThenParse | src/utils/dateUtils.js:52 | parsing a formatted date gives the date back |
| DateUtils.AddMonths | src/utils/dateUtils.js:16-20 | defined exactly for valid dates, and yields a valid date |
| DateUtils.ShiftMonthsIsMakeDay | src/utils/dateUtils.js:18 | the shifted date is day d-1 after the first of the target month, as `setMonth` computes it |
| DateUtils.ShiftOneIsNextMonth | src/utils/dateUtils.js:16-20 | shifting by one month agrees with the getNextMonthDate rollforward |
| DateUtils.NextMonthKeepsDay | src/utils/dateUtils.js:50-51 | when the day exists in the next month the day is kept and the month advances, December rolling to January |
| DateUtils.NextMonthOverflows | src/utils/dateUtils.js:51 | 2024-01-31 rolls to 2024-03-02 and is not clamped |
| DateUtils.ShiftMonthsNotAdditive | src/utils/dateUtils.js:18 | two one-month shifts differ from one two-month shift |
| DateUtils.GetNextMonthDate | src/utils/dateUtils.js:44-56 | null exactly for a falsy or unparsable input |
| DateUtils.NextMonthDateRoundTrip | src/utils/dateUtils.js:44-56 | a valid date string gives the formatted next-month date, which parses back to it |
| DateUtils.FormattedNextMonth | src/utils/dateUtils.js:50-52 | for a formatted date the result is the formatted rollforward |
| DateUtils.IsOverdueMeaning | src/utils/dateUtils.js:22-24 | overdue iff the date is before today, or is today after midnight has passed |
| DateUtils.IsOverdue | src/utils/dateUtils.js:22-24 | false for a date that does not parse; a date of today is overdue iff midnight has passed |
| DateUtils.GetDaysUntilDue | src/utils/dateUtils.js:26-42 | null exactly for a falsy or unparsable date |
| DateUtils.DaysUntilDueSign | src/utils/dateUtils.js:26-42 | 0 iff due today; negative iff due before today |
| LoanDetails.SortByDueDate | src/components/LoanDetails.jsx:39 | sorts the array in place by due date and keeps the same payments |
| LoanDetails.InsertionSort | src/components/LoanDetails.jsx:39 | for any total preorder: sorted, and a permutation of the input |
| LoanDetails.InsertAt | src/components/LoanDetails.jsx:39 | extends the sorted prefix by one element, as a permutation |
| LoanDetails.GenerateNextPayment | src/components/LoanDetails.jsx:38-55 | sorts the whole array in place latest due date first, as a permutation, and builds the entry from the first payment, or from the loan when there is none |
| LoanDetails.NextPaymentEntry | src/components/LoanDetails.jsx:40-52 | amount is the loan's monthly interest, status 'pending', type 'interest', loanId the loan's id, due date one month after the last due date, else after the start date |
| LoanDetails.NextDueDate | src/components/LoanDetails.jsx:40-42 | null iff getNextMonthDate gives null, the next-month string otherwise |
| LoanDetails.SortedFirstNotBefore | src/components/LoanDetails.jsx:39-41 | after the sort the first payment's due date is not before any other |
| LoanDetails.FirstIsLatest | src/components/LoanDetails.jsx:39-41 | the first payment's due day is the latest among the parsable ones |
| LoanDetails.PaymentStatusIcon | src/components/LoanDetails.jsx:57-65 | check, alert and clock iff paid, overdue and pending |
| LoanDetails.PaymentStatusColor | src/components/LoanDetails.jsx:67-71 | status-paid, -overdue and -pending iff paid, overdue and pending |
| LoanDetails.PaymentBadgeText | src/components/LoanDetails.jsx:198-199 | 'Paid', 'Overdue' and 'Pending' iff the same classification |
| LoanDetails.ClassifyMeaning | src/components/LoanDetails.jsx:61 | an unpaid payment is overdue iff due before today, or today after midnight |
| LoanDetails.Classify | src/components/LoanDetails.jsx:57-71 | paid iff status === 'paid'; overdue only for a parsable due_date; an unpaid payment due today is overdue iff midnight has passed |
| LoanDetails.RecordPaymentOnlyUnpaid | src/components/LoanDetails.jsx:201 | 'Record Payment' is offered only for pending payments, which are never classed paid |
| LoanDetails.ButtonsFollowStatus | src/components/LoanDetails.jsx:136-152 | for a fully paid loan the add button is disabled and the close button hidden; otherwise the reverse |
| LoanDetails.RecordPayment | src/components/LoanDetails.jsx:23-30 | routes to update when a payment is selected and to add otherwise, then clears the selection |
| DuePayments.ShownDueDate | src/components/DuePayments.jsx:31-34 | a date only for a truthy, parsable dueDate |
| DuePayments.FilteredPayments | src/components/DuePayments.jsx:18-57 | no input gives []; otherwise a permutation of the kept payments (same multiset as the filter), ascending by due date; payments due on the same day keep their input order (FilteredPaymentsStable) |
| DuePayments.FilteredPaymentsStable | src/components/DuePayments.jsx:48-52 | the payments listed for any one due day are exactly the kept payments of that day, in the order of the `payments` prop |
| DuePayments.FilterMeaning | src/components/DuePayments.jsx:36-47 | due_today: same day; this_week: 0 to 7 days ahead inclusive; overdue: before today and not paid; paid: status paid; all: everything |
| DuePayments.Kept | src/components/DuePayments.jsx:30-47 | a payment without a truthy, parsable dueDate is kept by no filter; 'all' keeps every other payment |
| DuePayments.NoDueDateNeverListed | src/components/DuePayments.jsx:31-34 | a payment without a parsable dueDate is listed under no filter |
| DuePayments.StoreRowsNeverListed | src/components/DuePayments.jsx:31 | a row without a dueDate field, as the store keeps them, is never listed |
| DuePayments.PaymentStatusText | src/components/DuePayments.jsx:91 | 'Paid' for a paid payment |
| DuePayments.PaymentStatusIcon | src/components/DuePayments.jsx:66-78 | check iff status === 'paid'; alert iff not paid and dueDate is before today's midnight; clock otherwise |
| DuePayments.PaymentStatusColor | src/components/DuePayments.jsx:80-87 | green, red and yellow exactly when the icon is check, alert and clock |
| DuePayments.IconAgreesWithText | src/components/DuePayments.jsx:66-101 | for an unpaid payment with a parsable dueDate, the alert icon iff the due day is before today iff the status text counts overdue days |
| DuePayments.IconIsClassifyAtMidnight | src/components/DuePayments.jsx:66-78 | the icon is LoanDetails' classification of dueDate taken at today's midnight instead of now |
| DuePayments.DueTodayDisagrees | src/components/DuePayments.jsx:74 | a payment due today, after midnight, shows pending here and overdue in LoanDetails |
| DuePayments.StatusTextFollowsDaysUntilDue | src/components/DuePayments.jsx:90-103 | unpaid: 'Overdue (Nd)' with N the days late, 'Due Today', or 'Due in Nd', following getDaysUntilDue |
| DuePayments.StatusTextNumber | src/components/DuePayments.jsx:100-102 | the number inside the text is the absolute day difference, in decimal |
| DuePayments.GetCustomerName | src/components/DuePayments.jsx:59-61 | 'Unknown' when the loan is not found |
| DuePayments.CustomerNameCases | src/components/DuePayments.jsx:62-63 | 'Unknown Customer' when no customer matches the loan's customerId, the customer's name otherwise |
| DuePayments.StoreLoanCustomerUnknown | src/components/DuePayments.jsx:62 | a store loan, which has no customerId, never finds its customer |
| Dashboard.GetMonthYear | src/components/Dashboard.jsx:10-14 | 'Unknown Date' for a falsy input, 'NaN-NaN' for an unparsable one |
| Dashboard.MonthYearIsDatePrefix | src/components/Dashboard.jsx:12-13 | for a YYYY-MM-DD date the month key is its first seven characters |
| Dashboard.FillMonthlyData | src/components/Dashboard.jsx:20-29 | the loop builds the per-month totals and lists each month key once |
| Dashboard.TotalsKeys | src/components/Dashboard.jsx:22-26 | a month has an entry iff some counted payment falls in it |
| Dashboard.TotalsMeaning | src/components/Dashboard.jsx:20-29 | each month's entry is the sum of the amounts of the paid, dated payments in it |
| Dashboard.MonthlyInterestData | src/components/Dashboard.jsx:19-36 | chart months are distinct and ascending, exactly the months with totals, each with its total |
| Dashboard.AvailableMonths | src/components/Dashboard.jsx:38-41 | 'all' followed by the distinct chart months in ascending order |
| Dashboard.AvailableMonthsOfChart | src/components/Dashboard.jsx:38-41 | for an ascending chart it is exactly 'all' then the chart's months |
| Dashboard.SelectedPayments | src/components/Dashboard.jsx:43-53 | 'all' keeps every payment; a month keeps exactly the paid, dated payments in it |
| Dashboard.SumOrZeroIsPlainSum | src/components/Dashboard.jsx:55-58 | with numeric or falsy values the reduction is the plain sum, a missing value counting 0 |
| Dashboard.SumOrZero | src/components/Dashboard.jsx:55-58 | no rows give 0; the result is a number or NaN |
| Dashboard.TotalInterestCollected | src/components/Dashboard.jsx:56-58 | when every paid payment has a numeric amount, the sum of the paid amounts (PaidSum) |
| Dashboard.PaidAmountsSum | src/components/Dashboard.jsx:56-58 | when every paid payment has a numeric amount, summing the paid amounts, a missing one as 0, gives the reference PaidSum |
| Dashboard.AllMonthsIsTotalInterestPaid | src/components/Dashboard.jsx:56-58 | with 'all' selected the card equals PaidSum and `calculateTotalInterestPaid` over the same payments |
| Dashboard.TotalLoansGiven | src/components/Dashboard.jsx:55 | the sum of loan amounts, missing ones counting 0 |
| Dashboard.SelectorSum | src/components/Dashboard.jsx:47-58 | summing the selected payments gives the month's sum |
| Dashboard.SelectedMonthMatchesChart | src/components/Dashboard.jsx:27-58 | the interest collected for a selected month equals that month's chart value |
| Dashboard.CountersBounded | src/components/Dashboard.jsx:59-60 | active plus completed loans never exceed the number of loans |
| Dashboard.ActiveLoans | src/components/Dashboard.jsx:59 | at most the number of loans, and 0 iff no loan has status 'ongoing'; the exact count is fixed by ActiveLoansCount |
| Dashboard.ActiveLoansCount | src/components/Dashboard.jsx:59 | the number of 'ongoing' loans: 0 for no loans, one more for each further 'ongoing' loan and unchanged otherwise |
| Dashboard.CompletedLoans | src/components/Dashboard.jsx:60 | at most the number of loans, and 0 iff no loan has status 'fully_paid'; the exact count is fixed by CompletedLoansCount |
| Dashboard.CompletedLoansCount | src/components/Dashboard.jsx:60 | the number of 'fully_paid' loans: 0 for no loans, one more for each further 'fully_paid' loan and unchanged otherwise |
| LoanList.CustomerName | src/components/LoanList.jsx:15-18 | the first matching customer's name, 'Unknown Customer' when none matches |
| LoanList.StatusColor | src/components/LoanList.jsx:24-30 | status-paid iff 'Fully Paid', status-overdue iff 'Overdue', status-pending otherwise |
| LoanList.LoanStatusColor | src/components/LoanList.jsx:24-30 | status-paid iff closed, -overdue iff a pending payment is late, -pending otherwise |
| LoanList.OrZero | src/components/LoanList.jsx:52-54 | undefined and null become 0; any other value is kept |
| LoanList.OrZeroOnlyForUndefined | src/components/LoanList.jsx:52-54 | defaulting changes the interest only where a value is undefined |
| LoanList.MissingAmountShowsZero | src/components/LoanList.jsx:52-54 | a missing amount shows 0 interest where the bare calculation gives NaN |
| LoanList.LoanCard | src/components/LoanList.jsx:48-54 | the card's name, status from the loan's own payments, matching colour, and the interest of the defaulted values |
| LoanList.ActiveCustomers | src/components/LoanList.jsx:122 | exactly the customers with status 'active', none duplicated |
| LoanForm.EditForm | src/components/LoanForm.jsx:24-31 | each field prefers the snake_case column, then the camelCase one, then the default |
| LoanForm.HandleSubmit | src/components/LoanForm.jsx:45-82 | never throws; rejected with the required-fields message iff a field is empty, then the amount message iff it parses to at most 0, then the rate message; accepted values are positive or NaN |
| LoanForm.LoanData | src/components/LoanForm.jsx:71-79 | customerId and startDate pass through; amount and rate are the parsed numbers |
| LoanForm.LoanDataDefaults | src/components/LoanForm.jsx:72-78 | id kept, else generated; status kept, else 'ongoing'; created_at of the edited loan when it has a truthy one, else now (for a new loan too) |
| LoanForm.BlankFormRejected | src/components/LoanForm.jsx:12-54 | the blank form is rejected for its empty required fields |
| LoanForm.AcceptedInterestPositive | src/components/LoanForm.jsx:55-70 | an accepted numeric loan earns positive monthly interest |
| LoanForm.SubmitThenInsert | src/components/LoanForm.jsx:71-79 | the row handleAddLoan inserts carries the entered values under the column names and the record's id |
| LoanForm.EditRoundTrip | src/components/LoanForm.jsx:24-82 | submitting a stored loan unedited is accepted and the update sends back its five columns |
| PaymentForm.Prefill | src/components/PaymentForm.jsx:14-26 | amount or ''; the date part of payment_date, else today; a truthy non-string date throws |
| PaymentForm.DatePart | src/components/PaymentForm.jsx:18 | the date part of an ISO date-time is the date |
| PaymentForm.HandleSubmit | src/components/PaymentForm.jsx:28-48 | never throws; rejected iff the amount is empty or parses to at most 0 |
| PaymentForm.AcceptedRecord | src/components/PaymentForm.jsx:40-45 | the record has status 'paid', the parsed amount (positive or NaN) and the entered date |
| PaymentForm.AcceptedKeepsFields | src/components/PaymentForm.jsx:41 | every other field of the selected payment is unchanged |
| PaymentForm.PrefillThenSubmit | src/components/PaymentForm.jsx:14-45 | recording a pending payment as prefilled gives the row with its amount, date part and status paid |
| PaymentForm.UpdateDropsDates | src/components/PaymentForm.jsx:40-45 | for a store row the update request carries status 'paid' and neither date |
| CustomerForm.Prefill | src/components/CustomerForm.jsx:16-26 | the three fields, each the customer's or '' |
| CustomerForm.HandleSubmit | src/components/CustomerForm.jsx:28-49 | throws iff the name is not a string; rejected iff it is all white space |
| CustomerForm.DefaultsRule | src/components/CustomerForm.jsx:42-44 | id, status and created_at of the customer, else a fresh id, 'active' and now |
| CustomerForm.AcceptedDefaults | src/components/CustomerForm.jsx:40-45 | the record carries those defaults over the form's fields |
| CustomerForm.AcceptedKeepsFields | src/components/CustomerForm.jsx:40-41 | every other field, the untrimmed name among them, is as entered |
| CustomerForm.EditRoundTrip | src/components/CustomerForm.jsx:16-49 | submitting a customer as prefilled is accepted with its name, id, status and creation time |
| CustomerForm.SubmitThenInsert | src/components/CustomerForm.jsx:40-45 | the row handleAddCustomer inserts has the fresh non-empty id, the entered name and status 'active' |
| CustomerForm.SubmitThenUpdate | src/components/CustomerForm.jsx:40-45 | the update sends the customer's id and status and the entered name, and no created_at |
| Text.TrimMeaning | src/components/CustomerForm.jsx:31 | trimming leaves nothing iff the name is all white space |
| Text.Trim | src/components/CustomerForm.jsx:31 | no longer than the string, and neither starts nor ends with white space |
| Text.SortStrings | src/components/Dashboard.jsx:31 | a sorted permutation in code-point order, which is UTF-16 code-unit order on the ASCII month keys |
| Text.SortDistinct | src/components/Dashboard.jsx:31 | distinct keys sort strictly ascending |
| Text.Dedup | src/components/Dashboard.jsx:39 | the same members, each once |
| Decimal.ParseFloatOf | src/components/LoanForm.jsx:55 | `parseFloat`: a number or NaN; numbers pass through; non-strings give NaN |
| Decimal.ParseFloatDigits | src/components/PaymentForm.jsx:31 | a digit string parses to its value |
| Decimal.ParseFloatNoDigits | src/components/PaymentForm.jsx:31 | a string with no digit at all parses to NaN |
| Decimal.ParseFloatNaN | src/components/PaymentForm.jsx:31 | NaN exactly when, after leading white space and one sign, neither a digit nor a point followed by a digit starts the string |
| Decimal.FromNatValue | src/utils/loanUtils.js:18 | the decimal form of a number without leading zeros round-trips |
| Decimal.ZeroPad | src/components/Dashboard.jsx:13 | digits of the value, of the requested width when it fits |
| Rows.FilterMembers | src/contexts/DataContext.jsx:123-129 | the rows kept are exactly those the predicate accepts |
| Rows.FilterAppend | src/contexts/DataContext.jsx:251 | filtering keeps input order |
| Rows.FilterSubMultiset | src/components/DuePayments.jsx:30 | filtering never duplicates a row |
| Rows.Find | src/contexts/DataContext.jsx:134 | `find`: none iff no row matches, else the first matching row |
| Rows.FirstIndexIsFirst | src/components/LoanList.jsx:16 | the first matching row is the one found |
| Rows.ReplaceWhere | src/contexts/DataContext.jsx:76 | same length; matching rows replaced, others in place |
| Rows.SortBy | src/components/DuePayments.jsx:48-52 | a permutation sorted by the key; stable by SortByStable |
| Rows.InsertByFilter | src/components/DuePayments.jsx:48-52 | inserting a row keeps the rows of every key in their order, the new one first among its key |
| Rows.SortByStable | src/components/DuePayments.jsx:48-52 | the rows sharing a key leave the sort in the order they entered, as Array.prototype.sort is stable |
| JsValues.Serialized | src/contexts/DataContext.jsx:69 | JSON drops undefined fields and writes NaN as null |
| JsValues.Truthy | src/components/CustomerForm.jsx:42-44 | every value except undefined, null, false, 0, NaN and '' |
| JsValues.Or | src/components/CustomerForm.jsx:42-44 | the logical or: a when truthy, else b; truthy iff either is |
| JsValues.StrictEq | src/contexts/DataContext.jsx:245 | `===`: only equal values, and NaN equals nothing |
| JsValues.ToNumber | src/utils/loanUtils.js:3 | numeric coercion: numbers kept, null and false 0, true 1, undefined and NaN NaN; strings NaN (see Left out) |
| JsValues.Plus | src/utils/loanUtils.js:8 | numbers add; NaN or undefined makes NaN; strings are not concatenated (see Left out) |
| JsValues.Spread | src/components/CustomerForm.jsx:40-45 | `{...a, ...b}`: the keys of both, b's value where b has the key, a's otherwise |

## Left out

- The remote store (Supabase) and `fetchData`: each call is the `Reply` or `Ack` parameter a handler receives. A successful reply with no rows (`data` null or empty) is not modelled.
- Toasts, console logging, dialogs closing and all rendering, animation and charting.
- Overlapping asynchronous handlers, and the cascade's lack of atomicity on the server.
- `Date.now()`, `Math.random()` and `new Date()` are parameters (`Env`, `Clock`).
- Time zones: every date is UTC, and only `YYYY-MM-DD` strings parse.
- Floating point: amounts are reals, and nothing rounds.
- String-to-number coercion in `*`: `ToNumber` sends every string to NaN.
- JsValues.Plus: `+` with a string operand concatenates in JavaScript (`0 + "5"` is `"05"`), while the model gives NaN. This affects the reductions of `calculateTotalInterestPaid` and the Dashboard totals (`CalculateTotalInterestPaid`, `SumOrZero`, `FillMonthlyData`) only for string amounts, which the forms never store: they store `parseFloat` results.
- DateUtils.DateOf: `new Date(5)` and `new Date(true)` are valid instants in JavaScript, while the model takes every non-string other than null as invalid. Date fields of the store's rows hold strings or null.
- LoanDetails.SortByDueDate: the stability of `Array.prototype.sort` (equal due dates keep their order) is not stated; the contract gives order and permutation.
- `parseFloat` of exponents, `Infinity` and hexadecimal forms is not modelled.
- LoanUtils.Token: the random digits are not constrained to base 36.
- Sort comparators that meet an unparsable date return NaN, which gives no consistent order. In LoanDetails the model orders such payments as the earliest. The due-payments filter removes them before its sort.
- The header badge of LoanDetails and `formatDate`.
- The form effects' dependence on the dialog being open.
- LoginScreen, App, BottomNavigation, CustomerList, currencyUtils and main are not part of this model.
- Dashboard.GetMonthYear: for valid dates the result is stated only for years 1000 to 9999 (`MonthYearIsDatePrefix`), because other years need a different number of digits.
