# Teaching-lab controllers and calculator, modelled in Dafny

This project models the four pieces of the Cognizant digital-nurture lab
repository whose behaviour can be stated precisely:

- **The dictionary-backed values controller** (Week 4, LAB1). It is an in-memory
  table of strings keyed by `int`, plus a counter that hands out the next
  identifier. The C# fields are `static`, so all requests share one table. The
  model is one `DictionaryValues.ValuesController` object with a `map` field, the
  counter, and a ghost set of every identifier handed out so far. The object
  invariant `Valid()` says every identifier ever handed out is below the counter.
  So `Create` never overwrites an entry and never reuses an identifier, even one
  that was deleted.
- **The list-backed values controller** (Week 4, LAB2). It offers the same
  create/read/update/delete endpoints over a `static List<string>`, and an
  identifier is a list position. The model is `ListValues.ValuesController`
  with a `seq` field. Its contracts state the bounds checks, the append position
  of `Post` and the shift that `RemoveAt` causes in `Delete`.
- **The calculator library** (Week 2). It works on 32-bit `int`s with unchecked,
  wrapping arithmetic (`DotNet.Wrap`). `IsEven` uses C#'s truncating `%`
  (`DotNet.Remainder`). `Max` and the divide-by-zero guard of `Divide` are also
  modelled. Every integer case of the NUnit test file is a lemma.
- **The JWT login controller** (Week 5). Its decision logic is modelled as pure
  functions: the two hard-coded credential pairs, `Register`'s field checks,
  the user record derived from a name, and the four claims put into the token.

Each operation returns a `Response<T>` (`ActionResults`). Its constructors
stand for `Ok`, `CreatedAtAction`, `NotFound`, `BadRequest` and `Unauthorized`.
The extra constructor `IdsExhausted` stands for no result of the source: it is
the refusal of the corrected `Create` described under "## Findings".
Request bodies can be null in C#, so strings from a request are
`Option<string>`. `string.IsNullOrWhiteSpace` uses `char.IsWhiteSpace`'s
character set. `int.ToString()` is modelled by the printer `IntToString`. A
parser `ParseInt` reads decimal text, and a round-trip lemma proves that it
reads back what `IntToString` prints.

## Model

| member | source | states |
|---|---|---|
| `DictionaryValues.ValuesController.constructor` | Week4_ASPNET_WebApi/LAB1_ASPNET_WEBAPI/Code/Controllers/ValuesController.cs:12-18 | The table starts as {1: value1, 2: value2, 3: value3} with the counter at 4, and the key invariant holds from the start |
| `DictionaryValues.ValuesController.GetAll` | Week4_ASPNET_WebApi/LAB1_ASPNET_WEBAPI/Code/Controllers/ValuesController.cs:24 | Returns `Ok` with the whole table |
| `DictionaryValues.ValuesController.Get` | Week4_ASPNET_WebApi/LAB1_ASPNET_WEBAPI/Code/Controllers/ValuesController.cs:30-36 | `Ok` exactly when id is a key, carrying its value; otherwise `NotFound` with the id written into the message; nothing changes |
| `DictionaryValues.ValuesController.Create` | Week4_ASPNET_WebApi/LAB1_ASPNET_WEBAPI/Code/Controllers/ValuesController.cs:42-52 | A null, empty or white-space value gives `BadRequest("Value cannot be empty")` and changes nothing. A valid value is stored under the old counter, which was never handed out before and is not a live key. The result is `Created` with that id, and the counter goes up by exactly 1. When the counter is already `int.MaxValue`, `Create` returns `IdsExhausted` and stores nothing: this refusal is the corrected behaviour of the finding below, whereas the source stores the value under `int.MaxValue` and wraps the counter. The invariant that every issued id is below the counter is kept |
| `DictionaryValues.ValuesController.Update` | Week4_ASPNET_WebApi/LAB1_ASPNET_WEBAPI/Code/Controllers/ValuesController.cs:58-68 | Existence is checked before validity: a missing id is `NotFound` even for a blank value. A blank value is `BadRequest`. Otherwise only that key's value is replaced, the key set and the counter stay, and the message names the id |
| `DictionaryValues.ValuesController.Delete` | Week4_ASPNET_WebApi/LAB1_ASPNET_WEBAPI/Code/Controllers/ValuesController.cs:74-81 | A present id is removed and nothing else changes; the counter and the set of issued ids stay, so the id is never handed out again. An absent id is `NotFound` and nothing changes |
| `DictionaryValues.ValuesController.GetInfo` | Week4_ASPNET_WebApi/LAB1_ASPNET_WEBAPI/Code/Controllers/ValuesController.cs:87-95 | totalItems is the number of keys, nextId is the counter, and availableIds holds exactly the keys in strictly ascending order |
| `DictionaryValues.CreateUnchecked` | Week4_ASPNET_WebApi/LAB1_ASPNET_WEBAPI/Code/Controllers/ValuesController.cs:47-49 | The as-written `Create` of a valid value: store under the counter, then `_nextId++`. The new table has the old keys plus the counter, holds the value there and leaves every other entry alone; the counter goes up by one, except that at `int.MaxValue` it wraps to `int.MinValue`. Paired under "## Findings" with the corrected `DictionaryValues.ValuesController.Create` |
| `DictionaryValues.CreateThenDeleteUnchecked` | Week4_ASPNET_WebApi/LAB1_ASPNET_WEBAPI/Code/Controllers/ValuesController.cs:47-49 | The as-written `Create` followed by the `Remove` of the reported id (line 79): the keys lose only that id, every remaining entry keeps its value, the table is unchanged when the id was not live, and the counter moves to the wrapped next value |
| `DictionaryValues.CreateThenDeleteUncheckedTimesCounter` | Week4_ASPNET_WebApi/LAB1_ASPNET_WEBAPI/Code/Controllers/ValuesController.cs:47-49 | As written, k pairs of `Create` and `Delete` of the reported id, none landing on a live id, leave the table unchanged and advance the counter by k modulo 2^32 |
| `DictionaryValues.CreateUncheckedReusesIds` | Week4_ASPNET_WebApi/LAB1_ASPNET_WEBAPI/Code/Controllers/ValuesController.cs:47-49 | As written, from the seeded table, 2^31 - 5 create-then-delete pairs bring the counter to `int.MaxValue`, and creating there wraps it to `int.MinValue`, below the new key. 2^32 - 3 pairs bring the counter back to 1 with the table back to the seed, so the next `Create` overwrites entry 1 |
| `ListValues.ValuesController.constructor` | Week4_ASPNET_WebApi/LAB2_ASPNET_WEBAPI/Code/Controllers/ValuesController.cs:12 | The list starts as ["value1", "value2", "value3"] |
| `ListValues.ValuesController.GetAll` | Week4_ASPNET_WebApi/LAB2_ASPNET_WEBAPI/Code/Controllers/ValuesController.cs:20-23 | Returns `Ok` with the whole list |
| `ListValues.ValuesController.Get` | Week4_ASPNET_WebApi/LAB2_ASPNET_WEBAPI/Code/Controllers/ValuesController.cs:33-39 | `Ok` exactly when 0 <= id < Count, carrying the value at id. Every other id, negative ones included, gives `NotFound` with the literal, non-interpolated text "Value with ID {id} not found" |
| `ListValues.ValuesController.Post` | Week4_ASPNET_WebApi/LAB2_ASPNET_WEBAPI/Code/Controllers/ValuesController.cs:49-56 | A blank value gives `BadRequest` and leaves the list alone. Otherwise the value is appended, and the reported id is the new Count - 1, where the value now sits |
| `ListValues.ValuesController.Put` | Week4_ASPNET_WebApi/LAB2_ASPNET_WEBAPI/Code/Controllers/ValuesController.cs:68-78 | Bounds are checked before validity. Out of range gives `NotFound` and blank gives `BadRequest`, both without change. Otherwise only position id is replaced and the length stays |
| `ListValues.ValuesController.Delete` | Week4_ASPNET_WebApi/LAB2_ASPNET_WEBAPI/Code/Controllers/ValuesController.cs:88-95 | Out of range gives `NotFound` without change. Otherwise the list is one shorter, earlier elements keep their ids, and every later element moves down one position, so its id changes |
| `Calculator.Add` | Week2_NUnit_and_Modq/1.Nunit/Code/CalcLibrary/Calculator.cs:16-19 | The sum when it fits in an `int`; in every case the result is congruent to a + b modulo 2^32 (unchecked wrap-around) |
| `Calculator.Subtract` | Week2_NUnit_and_Modq/1.Nunit/Code/CalcLibrary/Calculator.cs:27-30 | The difference when it fits; in every case congruent to a - b modulo 2^32 |
| `Calculator.Multiply` | Week2_NUnit_and_Modq/1.Nunit/Code/CalcLibrary/Calculator.cs:38-41 | The product when it fits; in every case congruent to a * b modulo 2^32 |
| `Calculator.Divide` | Week2_NUnit_and_Modq/1.Nunit/Code/CalcLibrary/Calculator.cs:50-56 | Fails with `DivideByZeroException("Cannot divide by zero")` exactly when b == 0; otherwise the quotient times b is a |
| `Calculator.Max` | Week2_NUnit_and_Modq/1.Nunit/Code/CalcLibrary/Calculator.cs:85-88 | At least a, at least b, and equal to one of them |
| `Calculator.IsEven` | Week2_NUnit_and_Modq/1.Nunit/Code/CalcLibrary/Calculator.cs:74-77 | `number % 2 == 0` with C#'s truncating `%` holds exactly when 2 divides the number, zero and negatives included |
| `Calculator.RemainderOfNegativeOdd` | Week2_NUnit_and_Modq/1.Nunit/Code/CalcLibrary/Calculator.cs:74-77 | On a negative odd number the truncating `%` gives -1 where the Euclidean one gives 1, so only the test against 0 is right for negatives |
| `Calculator.AddWrapsAround` | Week2_NUnit_and_Modq/1.Nunit/Code/CalcLibrary/Calculator.cs:16-19 | `int.MaxValue + 1` is `int.MinValue` and `int.MinValue - 1` is `int.MaxValue` |
| `Calculator.SubtractSelfIsZero` | Week2_NUnit_and_Modq/1.Nunit/Code/CalcLibrary/Calculator.cs:27-30 | Subtract(a, a) = 0 for every `int` a |
| `Calculator.MultiplyByZeroAndOne` | Week2_NUnit_and_Modq/1.Nunit/Code/CalcLibrary/Calculator.cs:38-41 | Multiplying by 0 gives 0 and multiplying by 1 gives the other factor, on either side |
| `Calculator.MultiplySigns` | Week2_NUnit_and_Modq/1.Nunit/Code/CalcLibrary/Calculator.cs:38-41 | When the product fits, unlike signs give a negative result, like non-zero signs a positive one, and the order of the factors does not matter |
| `Calculator.AddTwoPositiveNumbers` | Week2_NUnit_and_Modq/1.Nunit/Code/CalculatorTests/CalculatorTests.cs:50-62 | The plain addition test: 5 + 3 = 8 |
| `Calculator.AddTestCases` | Week2_NUnit_and_Modq/1.Nunit/Code/CalculatorTests/CalculatorTests.cs:68-84 | The seven parameterised addition cases, including int.MaxValue - 1 + 1 = int.MaxValue |
| `Calculator.SubtractTestCases` | Week2_NUnit_and_Modq/1.Nunit/Code/CalculatorTests/CalculatorTests.cs:90-102 | The subtraction cases of the tests |
| `Calculator.MultiplyTestCases` | Week2_NUnit_and_Modq/1.Nunit/Code/CalculatorTests/CalculatorTests.cs:108-120 | The multiplication cases of the tests, with their signs |
| `Calculator.DivideTestCases` | Week2_NUnit_and_Modq/1.Nunit/Code/CalculatorTests/CalculatorTests.cs:126-150 | The division cases of the tests, and the exception with its message for 10 / 0 |
| `Calculator.IsEvenTestCases` | Week2_NUnit_and_Modq/1.Nunit/Code/CalculatorTests/CalculatorTests.cs:173-185 | 2, 0 and -2 are even; 3 and -3 are odd |
| `Calculator.MaxTestCases` | Week2_NUnit_and_Modq/1.Nunit/Code/CalculatorTests/CalculatorTests.cs:191-202 | The maximum cases of the tests, negatives included |
| `Calculator.ChainedOperations` | Week2_NUnit_and_Modq/1.Nunit/Code/CalculatorTests/CalculatorTests.cs:239-254 | Add(5, 3) = 8, then Subtract(8, 3) = 5, then Multiply(5, 2) = 10, then Divide(10, 2) = 5 |
| `Auth.Login` | Week5_Webapi_Microservices/Microservices_HandsOn/Code/Controllers/AuthController.cs:22-38 | `Unauthorized("Invalid username or password")` exactly when `IsValidUser` is false. Otherwise `Ok` with the token's claims and the user record, both derived from the given name |
| `Auth.Register` | Week5_Webapi_Microservices/Microservices_HandsOn/Code/Controllers/AuthController.cs:41-49 | `BadRequest("Username and password are required")` exactly when either field is null or empty; otherwise `Ok("User registered successfully")` |
| `Auth.IsValidUser` | Week5_Webapi_Microservices/Microservices_HandsOn/Code/Controllers/AuthController.cs:51-57 | Valid exactly when the password is "password" and the name is "admin" or "user" |
| `Auth.EmptyFieldsNeverValid` | Week5_Webapi_Microservices/Microservices_HandsOn/Code/Controllers/AuthController.cs:51-57 | A null or empty name or password is never a valid login, so the emptiness checks decide nothing beyond the pair comparison |
| `Auth.GetUserInfo` | Week5_Webapi_Microservices/Microservices_HandsOn/Code/Controllers/AuthController.cs:59-68 | Username is the input and Email is the input followed by "@example.com". The id is 1 exactly for "admin" and 2 for every other name, and the role is Admin exactly when the id is 1, User otherwise |
| `Auth.EmailIdentifiesUser` | Week5_Webapi_Microservices/Microservices_HandsOn/Code/Controllers/AuthController.cs:65 | Distinct user names get distinct e-mail addresses |
| `Auth.TokenClaims` | Week5_Webapi_Microservices/Microservices_HandsOn/Code/Controllers/AuthController.cs:72-79 | Exactly four claims, in the order name, e-mail, role, UserId |
| `Auth.ClaimsDescribeUser` | Week5_Webapi_Microservices/Microservices_HandsOn/Code/Controllers/AuthController.cs:72-79 | Reading the four claims back gives exactly `GetUserInfo(username)`, with the UserId claim parsing to the id |
| `Auth.LoginAsAdmin` | Week5_Webapi_Microservices/Microservices_HandsOn/Code/Controllers/AuthController.cs:22-38 | admin with password "password" logs in as user 1, admin@example.com, role Admin, and the token's UserId claim is "1" |
| `Auth.LoginAsUser` | Week5_Webapi_Microservices/Microservices_HandsOn/Code/Controllers/AuthController.cs:22-38 | user with password "password" logs in as user 2, user@example.com, role User, and the token's UserId claim is "2" |
| `Auth.LoginRejected` | Week5_Webapi_Microservices/Microservices_HandsOn/Code/Controllers/AuthController.cs:22-38 | At the action, a wrong password or a null name is `Unauthorized` |
| `Auth.RegisterAcceptsWhiteSpace` | Week5_Webapi_Microservices/Microservices_HandsOn/Code/Controllers/AuthController.cs:43-46 | The action itself accepts white-space-only fields; an empty name or a null password is refused |
| `Auth.RegisterStoresNothing` | Week5_Webapi_Microservices/Microservices_HandsOn/Code/Controllers/AuthController.cs:41-49 | Registering an account other than the two built-in ones does not let it log in |
| `DotNet.Wrap` | Week2_NUnit_and_Modq/1.Nunit/Code/CalcLibrary/Calculator.cs:18 | An unchecked `int` result is the value in range congruent to the exact result modulo 2^32, and the exact result itself when that fits |
| `DotNet.WrapAddWrap` | Week4_ASPNET_WebApi/LAB1_ASPNET_WEBAPI/Code/Controllers/ValuesController.cs:49 | Wrapping after each increment gives the same result as wrapping once at the end |
| `DotNet.Remainder` | Week2_NUnit_and_Modq/1.Nunit/Code/CalcLibrary/Calculator.cs:76 | C#'s `%`: the dividend minus the quotient rounded toward zero times the divisor, so its magnitude is below the divisor's and its sign follows the dividend |
| `DotNet.IntToString` | Week4_ASPNET_WebApi/LAB1_ASPNET_WEBAPI/Code/Controllers/ValuesController.cs:33 | The text starts with '-' exactly for negative ids |
| `DotNet.ParseIntToString` | Week5_Webapi_Microservices/Microservices_HandsOn/Code/Controllers/AuthController.cs:78 | Parsing the decimal text of any integer gives that integer back |
| `DotNet.IntToStringInjective` | Week4_ASPNET_WebApi/LAB1_ASPNET_WEBAPI/Code/Controllers/ValuesController.cs:33 | Different ids print differently, so each `NotFound` message names exactly one id |
| `DotNet.Ascending` | Week4_ASPNET_WebApi/LAB1_ASPNET_WEBAPI/Code/Controllers/ValuesController.cs:93 | `OrderBy(k => k)` on the keys yields each key exactly once, in strictly ascending order |

## Left out

- The Kafka chat client (Week5_Webapi_Microservices/LAB6_ASP.NET_WEBAPI/Code/Program.cs) is not part of this model. It consists of a background consumer task, a cancellation token, a Ctrl+C handler and Confluent.Kafka broker calls. Its only pure rule is skipping blank input lines.
- The Entity Framework controllers (`EmployeeController`, `EmpController`, the LAB1 `ProductsController`) and the database contexts are not part of this model. They delegate to `FindAsync`/`SaveChangesAsync`, whose key generation is not visible.
- The models and DTOs are not part of this model. Their validation is declarative attributes enforced by the framework, and they hold `decimal` and `DateTime` values.
- Token signing and expiry are not modelled: HMAC-SHA256, issuer and audience from configuration, `DateTime.UtcNow`, and the `ExpiresAt` field of the login response. The token is represented by the claims it carries.
- Calculator.Divide: the quotient is the exact real a / b. Rounding to `double` is not modelled.
- `CalculatePercentage` is not modelled, because it is `double` arithmetic only.
- HTTP mechanics are not modelled: status codes, the route that `CreatedAtAction` builds, and JSON serialisation of anonymous objects.
- Concurrency is not modelled. The static `Dictionary`/`List` are shared by concurrent requests without locking, but the model runs requests one at a time.
- ListValues.ValuesController.Post: the model does not include the `List<T>` limit on Count, which is itself an `int`.
- DictionaryValues.ValuesController.Create: the model does not include the capacity limit of .NET's `Dictionary<int, string>` (about 2^31 entries), so a table cannot fill up in the model.
- Auth.Register: the `[Required]` attributes on `LoginModel` and the framework's automatic 400 answer run before the action and are not modelled, so a white-space-only field that the action accepts may never reach it.
- Auth.Login: the same `[Required]` validation is not modelled, so a null or empty field that the action answers with `Unauthorized` is answered with 400 by the framework before the action runs.
- Auth.LoginRejected: its null-name case describes the action alone, for the same reason.
- `int.ToString()` is modelled for the invariant culture: a '-' sign followed by decimal digits.
- The `User` class is not part of this model. It is modelled by the four properties the controller sets.
- The hosting files, React components, `CustomerComm` and the mock-based tests are not part of this model.

## Findings

| source | as written | input that shows it | evidently intended | confidence | as-written member | corrected member |
|---|---|---|---|---|---|---|
| Week4_ASPNET_WebApi/LAB1_ASPNET_WEBAPI/Code/Controllers/ValuesController.cs:47-49 | `_values[_nextId] = value; _nextId++;` on a 32-bit `int` in an unchecked context. At `int.MaxValue` the counter wraps to `int.MinValue` and later climbs back through ids already in use, and `_values[_nextId] = value` silently overwrites an entry | Start from the seeded table and repeat 2^32 - 3 times: post a valid value, then delete the id it reports. The table never holds more than four entries. The counter is then 1 while entry 1 still exists, and the next `Create` overwrites it. The first wrap already happens at the 2^31 - 4th create | Identifiers are never reused and `Create` never overwrites. The counter must not wrap: `Create` refuses (`IdsExhausted`) instead of storing once the counter reaches `int.MaxValue` | not executed; needs about 2^32 requests before the first wrap | `DictionaryValues.CreateUncheckedReusesIds` | `DictionaryValues.ValuesController.Create` |
