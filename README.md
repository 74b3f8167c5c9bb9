# Number classification API — a Dafny model

This project models the core of a single-endpoint HTTP service,
`GET /api/classify-number?number=<value>`. The service classifies an integer
and reports:

- whether it is prime;
- whether it is perfect;
- its digit properties (Armstrong number, parity);
- its digit sum;
- a "fun fact" from an external fact service.

A failed fact lookup never turns into an error response.

Modules:

- `Primality` (primality.dfy): `isPrime`. The loop becomes the method
  `IsPrime`, proved equal to the reference predicate `Prime(n)`: n > 1 and no
  d in [2, n) divides n. The lemma `TrialDivision` states the square-root
  bound the loop relies on.
- `Perfection` (perfection.dfy): `isPerfect`. The divisor-pair loop becomes
  the method `IsPerfect`, proved equal to `Perfect(n)`: n > 1 and the divisors
  of n in [1, n) sum to n. The invariant says that the running sum is 1, plus
  the divisors below `i`, plus exactly the divisors of n at or above
  `Upper(n, i)`, the complements added so far.
- `DigitProperties` (digits.dfy): `digitSum` and `isArmstrong`. Both are pure
  folds over the characters of `|n|.toString()`. Each is proved equal to an
  arithmetic reference definition over `n / 10` and `n % 10`.
- `Decimal` (decimal.dfy): the decimal text of numbers. This covers
  `toString`, the `${num}` interpolation in the fallback fact, and parsing of
  the query value. It also has `JsRem`, JavaScript's truncating `%`.
- `Classify` (classify.dfy): the handler.
  - `Validate` checks the query value.
  - `Properties` builds the properties list.
  - `FunFact` chooses the fun fact.
  - `Respond` assembles the full response.
  - `ClassifyResponse` builds the 200 response. The source builds it in two
    textually identical blocks (src/app.js:59-69 and 74-84), one after a
    successful lookup and one in the catch branch. They differ only in
    `fun_fact`, so the model merges them into one function, and the lookup
    outcome changes nothing else by construction.
  - The method `ClassifyNumber` is the handler with the helper loops. After
    validation it runs `IsPrime` and `IsPerfect` once on the parsed number,
    then chooses `fun_fact` from the lookup outcome. It is proved equal to
    `Respond`. The source awaits the lookup before classifying; since the
    classification is pure, the order changes nothing.
- `Divisibility` (divisibility.dfy): arithmetic facts shared by the proofs.
- `Wrappers` (wrappers.dfy): `Option` and `Result`.

External inputs become parameters:

- The query value is an `Option<string>`. `None` means the parameter is absent.
- The HTTP fact lookup is a `Lookup` value: either `Fetched(data)`, or
  `Failed(code)` with the error's optional `code`. The code
  `"ECONNABORTED"` is the timeout.

Behaviour of the code that the model keeps:

- Negative numbers are not excluded from the Armstrong test. `isArmstrong`
  takes `Math.abs` of both sides, so `-153` is an Armstrong number
  (`ArmstrongExamples`).
- Every single digit, 0 included, is an Armstrong number
  (`SingleDigitArmstrong`). So the response for `"4"` has properties
  `["armstrong", "even"]` (`ExampleFour`).
- A rejection echoes the raw value, or `'undefined'` when the value is absent
  or empty (`number || 'undefined'`).
- A failed lookup gives one of two texts:
  - `"Fact request timed out"` for an error whose code is `ECONNABORTED`;
  - `"No fun fact available for <num>"` for every other failure.
- Fetched data is used verbatim, even when it is empty.
- Every integer is classified, however large; the code has no range check.

## Model

| member | source | states |
|---|---|---|
| `Primality.IsPrime` | src/app.js:9-17 | the trial-division loop returns exactly Prime(n) (n > 1 and no divisor in [2, n)); false for n <= 1, true for 2, false for even n > 2 |
| `Primality.TrialDivision` | src/app.js:12-16 | for odd n > 2, n is prime iff no odd i >= 3 with i * i <= n divides n |
| `Primality.PrimeExamples` | src/app.js:9-17 | 2, 3, 7, 13 are prime; 1, 0, -7, 9, 91 are not |
| `Perfection.IsPerfect` | src/app.js:19-30 | the divisor-pair loop returns exactly Perfect(n): n > 1 and the divisors of n in [1, n) sum to n |
| `Perfection.PerfectStep` | src/app.js:22-28 | one iteration adds i and its complement n / i (the complement once when it equals i) and keeps the sum equal to the divisors below i plus those at or above Upper(n, i) |
| `Perfection.PerfectExit` | src/app.js:22-29 | once i * i > n, Upper(n, i) is i, and 1 plus the counted divisors is the sum of all proper divisors |
| `Perfection.PerfectInit` | src/app.js:20-22 | before the loop no divisor lies in (n / 2, n), so the starting sum 1 is correct |
| `Perfection.PerfectExamples` | src/app.js:19-30 | 6 and 28 are perfect, 12 is not |
| `DigitProperties.DigitSum` | src/app.js:39-42 | the digit sum is between 0 and 9 times the number of digits of abs(n) |
| `DigitProperties.DigitSumReference` | src/app.js:39-42 | folding parseInt over the characters of abs(n).toString() gives the arithmetic digit sum of abs(n) |
| `DigitProperties.DigitSumBounds` | src/app.js:39-42 | the digit sum is at most abs(n), and it is zero iff n is zero |
| `DigitProperties.SignIgnored` | src/app.js:32-42 | digitSum(n) == digitSum(-n) and isArmstrong(n) == isArmstrong(-n) |
| `DigitProperties.IsArmstrong` | src/app.js:32-37 | the fold over the characters of abs(n).toString() holds iff the digits of abs(n), each raised to the digit count of abs(n), sum to abs(n) |
| `DigitProperties.DigitValues` | src/app.js:35 | parseInt of each character of a digit string gives one value per character, each in 0..9 |
| `DigitProperties.SingleDigitArmstrong` | src/app.js:32-37 | every n with abs(n) < 10, zero included, is an Armstrong number |
| `DigitProperties.ArmstrongExamples` | src/app.js:32-37 | 153, 371, 9474 and -153 are Armstrong numbers; 10 is not |
| `DigitProperties.DigitSumExamples` | src/app.js:39-42 | digitSum(-123) == 6, digitSum(0) == 0, digitSum(4) == 4 |
| `Decimal.NatToString` | src/app.js:33 | toString of a non-negative number is canonical decimal text (digits, no leading zero), one character exactly below 10 |
| `Decimal.ParseNatToString` | src/app.js:33-36 | reading the characters of toString back as digits gives the number |
| `Decimal.NatToStringParse` | src/app.js:52 | on canonical digit text, printing the parsed value gives the text back |
| `Decimal.IntToString` | src/app.js:73 | the `${num}` text starts with '-' iff num < 0, and the rest is canonical decimal text |
| `Decimal.IntToStringRoundTrip` | src/app.js:52 | the decimal text of any integer parses back to that integer |
| `Decimal.ParseInt` | src/app.js:48-52 | a query value parses iff it is an optional '-' followed by one or more digits |
| `Decimal.JsRem` | src/app.js:65 | JavaScript's truncating remainder: a minus the result is a multiple of the divisor, the result has the sign of a (or is zero) and is below the divisor in magnitude |
| `Decimal.JsRemZero` | src/app.js:65 | `num % 2 === 0` agrees with the Euclidean test n % 2 == 0, negatives included |
| `Classify.Properties` | src/app.js:63-66 | one or two entries; the last is "even" iff n % 2 == 0, else "odd"; "armstrong" appears iff isArmstrong(n), and only before the parity |
| `Classify.Validate` | src/app.js:48-52 | rejects exactly an absent value or one that is not an optional '-' followed by digits; an accepted value parses to the returned number; a rejection echoes the raw value, or 'undefined' when absent or empty |
| `Classify.ClassifyResponse` | src/app.js:59-84 | status 200 with the number itself, is_prime Prime(n), is_perfect Perfect(n), the arithmetic digit sum of abs(n), properties exactly Properties(n) (["armstrong"] iff isArmstrong(n), then the parity), and the chosen fun_fact |
| `Classify.Respond` | src/app.js:45-86 | status 400 exactly when validation fails, with the echo as the error body; otherwise exactly ClassifyResponse of the validated number and the lookup outcome, so every field of that contract holds for every accepted query |
| `Classify.ClassifyNumber` | src/app.js:45-86 | the handler, running the IsPrime and IsPerfect loops, returns Respond(query, outcome), with status 400 exactly when validation fails |
| `Classify.ValidateDecimal` | src/app.js:48-52 | the decimal text of any integer n passes validation as n |
| `Classify.Rejection` | src/app.js:48-49 | an absent or non-numeric value gives status 400 with the raw value echoed, or 'undefined' when absent or empty |
| `Classify.LookupOnlyChangesFunFact` | src/app.js:54-85 | two lookup outcomes give the same status and the same fields except fun_fact |
| `Classify.RespondDecimal` | src/app.js:52-69 | for the decimal text of n the response is a 200 with number n, is_prime Prime(n), is_perfect Perfect(n), the arithmetic digit sum, properties exactly Properties(n), and fun_fact FunFact(n, outcome) |
| `Classify.FallbackNamesNumber` | src/app.js:73 | on a non-timeout failure fun_fact is the fallback prefix followed by text that parses back to num, and differs from the timeout text |
| `Classify.FunFact` | src/app.js:68-83 | fetched data is used verbatim, even when empty; an ECONNABORTED failure gives "Fact request timed out"; any other failure gives "No fun fact available for " followed by the decimal text of num |
| `Classify.ExampleFour` | src/app.js:45-71 | "4" with a fetched fact gives 200 with number 4, not prime, not perfect, ["armstrong", "even"], digit sum 4, the fact verbatim |
| `Classify.ExampleTimeout` | src/app.js:72-84 | "371" with a timeout gives 200 with number 371, not prime, ["armstrong", "odd"], and the timeout text |
| `Classify.ExampleRejections` | src/app.js:48-49 | "abc" echoes "abc"; "" and an absent value echo "undefined"; all with status 400 |

## Left out

- Express setup, CORS, `app.listen` and the `PORT` lookup (src/app.js:1-6, 88-91): server plumbing.
- The axios GET to numbersapi.com, its 500 ms timeout, and the `async`/`Promise.all` wrapper (src/app.js:55-57). These are replaced by the `Lookup` outcome parameter. No network, timing or concurrency is modelled.
- Floating-point `Math.sqrt` and `Math.pow`. They become the integer test `i * i <= n` and the integer `Pow`. The two agree on the safe-integer inputs involved. Rounding of `Math.sqrt` near 2^53 is not modelled.
- JavaScript number precision: integers are unbounded. Inputs beyond 2^53 - 1, which the source silently rounds, are not modelled. The same goes for `toString`'s switch to exponent notation beyond 10^21.
- The exact coercion of `isNaN(number)` and `parseInt(number, 10)` (src/app.js:48, 52). Validation is modelled on the clean domain "optional '-' followed by digits" (`Decimal.ParseInt`). The model answers 400 to the following inputs, which the source accepts:
  - a leading `+`, as in `"+5"` (the source answers 200 with 5);
  - surrounding whitespace, as in `" 5"`;
  - `"1.5"` (parsed as 1) and `"1e3"` (parsed as 1);
  - hex text;
  - a whitespace-only value such as `"  "`, and `"Infinity"`. These pass the `isNaN` test, but `parseInt` gives NaN. The source then answers 200 with `number: null`, `digit_sum: null` and properties `["odd"]`, and looks up `/NaN/math`.
- A repeated query parameter, which Express delivers as an array, is not modelled.
- `fun_fact` is modelled as a string. A non-text response body from the fact service is not modelled.
