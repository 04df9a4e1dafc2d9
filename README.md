# ChargeTunis backend: Luhn check, station availability, payment decision

This project models the small amount of logic in the ChargeTunis backend
(`main.py`). That backend lists electric-vehicle charging stations and runs a
mock payment flow. Three pieces are modelled:

- **Luhn validation of card numbers** (`luhn_check`), in module `Luhn`.
  The source drops every non-digit character and rejects input with fewer
  than 12 digits. It then walks the digits left to right and doubles each
  digit whose index has the same parity as the digit count. A doubled value
  above 9 loses 9. The number is accepted when the total is a multiple of 10.
  `LuhnCheck` is the imperative loop. Its reference is the textbook
  right-to-left Luhn sum of ISO/IEC 7812-1 Annex B (`RightSum`, `LuhnSum`,
  `IsValid`), and it is proved equal to that reference.
- **Simulated availability** in the station listing (`list_stations`), in
  module `Stations`. With `now` the current wall-clock second, a station of
  capacity `c` (4 when the record has none) shows `now % (c + 1)` connectors
  occupied. It shows `max(0, c - occupied)` available. `ListStations` is the
  loop that annotates every record in order.
- **The confirmation decision** (`confirm_payment`), in module `Payments`.
  A card number that fails the Luhn check is declined with
  "Invalid card number". Any other card number is confirmed with a
  transaction id `txn_` followed by twelve random hexadecimal characters.

Module `Wrappers` holds the `Option` and `Result` types the others use.

Clocks and randomness become parameters. `ListStations` takes `now`; in the
source it is `datetime.utcnow().second`. `ConfirmPayment` takes `uuidHex`; in
the source it is `uuid4().hex`. The station records that the document
store returns are passed in as a sequence.

Python's `%` takes the sign of the divisor, whereas Dafny's `%` is Euclidean.
`Stations.PyMod` writes Python's operator out. So a stored capacity below -1
is modelled as the source computes it: nothing is then ever available. A
capacity of exactly -1 makes the source divide by zero. The handler's
`except` turns that into HTTP status 500, and `ListStations` returns that
error.

## Model

| member | source | states |
|---|---|---|
| `Luhn.Digits` | main.py:26 | the digit filter keeps at most as many values as there are characters |
| `Luhn.DigitsOfDigitString` | main.py:26 | a string made only of digits maps character by character to its digit values |
| `Luhn.DigitsConcat` | main.py:26 | filtering a concatenation concatenates the filtered parts |
| `Luhn.DigitsOfStripped` | main.py:26 | removing every non-digit first leaves the digit sequence unchanged; a string is its own stripped form only if it is all digits |
| `Luhn.StrippedVerdict` | main.py:25-37 | the verdict on a string equals the verdict on its digit characters alone |
| `Luhn.DigitsInsertNonDigit` | main.py:26 | inserting a non-digit character anywhere leaves the digit sequence unchanged |
| `Luhn.InsertNonDigit` | main.py:25-37 | inserting or removing a non-digit character (dash, space) never changes the verdict |
| `Luhn.DashedVerdict` | main.py:25-37 | a 16-character number written as four dash-separated groups gets the same verdict as without dashes |
| `Luhn.Transform` | main.py:32-36 | each contribution to the checksum is in 0..9; an undoubled digit contributes itself; a doubled digit above 4 contributes a value in 1..9 |
| `Luhn.TransformIsDigitSum` | main.py:33-35 | subtracting 9 from a doubled digit above 9 equals summing the decimal digits of the double |
| `Luhn.TransformInjective` | main.py:32-36 | distinct digits make distinct contributions, whether doubled or not |
| `Luhn.Doubled` | main.py:30-32 | the loop doubles index `i` of `n` digits iff the offset `n-1-i` from the check digit is odd |
| `Luhn.LoopSumIsRightSum` | main.py:29-36 | after any prefix, the left-to-right accumulator equals the right-to-left Luhn sum of that prefix, with alternation anchored at the prefix's last digit |
| `Luhn.LoopMatchesTextbook` | main.py:29-36 | over all digits, the loop's checksum equals the standard Luhn sum, where the check digit is not doubled |
| `Luhn.LuhnCheck` | main.py:25-37 | the result is the standard Luhn verdict; fewer than 12 digits always give false; with 12 or more digits the result is true iff the loop checksum is 0 mod 10 |
| `Luhn.ZerosAccepted` | main.py:27-37 | any string of 12 or more zeros is accepted |
| `Luhn.ZerosBoundary` | main.py:27-28 | "000000000000" is accepted and "00000000000" (11 digits) is rejected |
| `Luhn.RightSumUpdate` | main.py:29-36 | replacing one digit changes the sum by exactly the change in that digit's contribution |
| `Luhn.SingleDigitChangeDetected` | main.py:29-37 | changing any one digit changes the Luhn sum modulo 10 |
| `Luhn.SingleDigitAlteration` | main.py:25-37 | replacing one digit character of an accepted number with a different digit makes it rejected |
| `Luhn.Repeat42Accepted` | main.py:25-37 | every number made of six or more blocks "42" is accepted |
| `Luhn.TestCardAccepted` | main.py:25-37 | the common test card number 4242424242424242 is accepted |
| `Luhn.AlteredRepeat42Rejected` | main.py:25-37 | changing the last digit of such a number from 2 to 1 (e.g. 4242424242424241) makes it rejected |
| `Stations.PyMod` | main.py:109 | Python's remainder: in [0, b) for a positive divisor, in (b, 0] for a negative one, and `a - r` is a multiple of b |
| `Stations.ClampAtZero` | main.py:110 | `max(0, x)` is at least x and is either 0 or x |
| `Stations.Occupied` | main.py:109 | for capacity ≥ 0 the occupied count lies in [0, capacity]; for capacity < -1 it lies in (capacity+1, 0] |
| `Stations.Available` | main.py:108-110 | never negative; for capacity ≥ 0 the clamp never applies and the result lies in [0, capacity]; for capacity < -1 it is 0 |
| `Stations.AvailablePeriodic` | main.py:109-110 | the simulated availability repeats every capacity + 1 seconds |
| `Stations.AvailableFirstCycle` | main.py:109-110 | while `now` ≤ capacity, exactly `now` connectors are taken |
| `Stations.Annotated` | main.py:107-113 | a record has no result iff its effective capacity is -1; otherwise every other field is unchanged, `id` and `available` are set, `available` is within [0, capacity] for a non-negative capacity, and a record without capacity is treated as capacity 4 |
| `Stations.ListStations` | main.py:101-116 | succeeds iff no record has effective capacity -1, and otherwise fails with status 500; on success it returns exactly one annotated record per input record, in input order |
| `Payments.TransactionId` | main.py:128 | the id is "txn_" followed by the first (at most) twelve characters of the random hex text |
| `Payments.ConfirmPayment` | main.py:124-129 | status is failed iff the card number fails the Luhn check; a failure has no transaction id and the message "Invalid card number"; a success carries the transaction id and "Payment confirmed" |

## Left out

- `str.isdigit()` is modelled as the ASCII digits '0'..'9'. Python also accepts other Unicode decimal digits, which `int()` turns into their values. It also accepts characters such as superscript two, and `int()` then raises; those inputs are not modelled.
- `schemas.py`: its pydantic models and their bounds are library validation, and are not modelled.
- `Stations.StationDoc` keeps the fields the listing reads or writes (`_id`, `capacity`, `available`, `id`). It also keeps `name` and `city` as stand-ins for the fields that pass through unchanged. The other station fields (`latitude`, `longitude`, `power_kw`, `price_tnd_per_kwh`, `brand`) are dropped.
- `Payments.PaymentConfirmIn` keeps all five request fields, although only the card number is ever read.
- Station records are values, so `ListStations` returns new records. The source mutates, in place, the dictionaries the store returned and appends those same objects, so that in-place update and aliasing are not modelled.
- Capacities that are not integers are not modelled; the model only tells an absent capacity from an integer one. A float capacity makes the source compute a float availability without error (a float -1.0 divides by zero instead). A null or string capacity raises a type error at `capacity + 1`, which the handler turns into status 500.
- The error detail text of the HTTP 500 answer (`str(e)`) is not modelled, and neither are failures of the document store itself. Only the status is kept.
- Reading the clock (`datetime.utcnow().second`, in 0..59) is left out. `now` is any integer parameter; the proved properties hold for all of them.
- The random `uuid4().hex` is a parameter of `ConfirmPayment`. The expiry, CVC and client secret in the request are carried but, as in the source, never inspected.
- Statuses are the enumeration `Succeeded | Failed` rather than the strings "succeeded" and "failed".
- `seed_data`, `test_database`: these are database and environment I/O with exceptions swallowed, so there is no logic to model.
- `root`: it only returns a constant message, so there is nothing to model.
- `create_payment_intent`: a floating-point product rounded to three decimals, plus a random client secret. Floating point is not modelled.
- FastAPI routing, CORS middleware and the `uvicorn` entry point are plumbing.
