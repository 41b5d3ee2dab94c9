# UserService: a verified model

This project models the in-memory `UserService` of the repository. The service
is a small directory of user records. It supports these operations:

- `createUser(name, email, age, isAdmin = false)` stores a new active user. It
  fails with the message `O usuário deve ser maior de idade.` when the age is
  under 18.
- `getUserById(id)` returns the stored user with that id.
- `deactivateUser(id)` makes a non-admin user `inativo` and answers `true`. For
  an admin it changes nothing and answers `false`.
- `generateUserReport()` renders the users as text. It begins with the header
  `--- Relatório de Usuários ---`. With no users it is exactly
  `--- Relatório de Usuários ---\nNenhum usuário cadastrado.`.
- `_clearDB()` empties the directory.

The implementation file `src/userService.js` is not part of this model. The
behaviour modelled here is the one the test file
`test/userService.clean.test.js` asserts. Where the tests leave something open,
the model makes a choice, and "## Left out" names each one.

Layout:

- `users.dfy`, module `Users`: the `User` record, `Status`, the `Option` and
  `Result` types, and the id numerals. It also holds `WellFormed`, the invariant
  of the stored list: every user is of legal age, no admin is inactive, and ids
  are unique. `Lookup` is the specification of lookup by id.
- `report.dfy`, module `Report`: the report text. `MatchesInOrder` states what
  it means for the test's pattern `ID: <id>.*Nome: <nome>.*Status: <status>` to
  match a text.
- `user_service.dfy`, module `UserDirectory`: `class UserService`. It has a
  mutable `users: seq<User>` and an id counter `nextId`, and its `Valid()` is
  `WellFormed`. Each mutating method states the whole new state in terms of the
  old state.
- `service_tests.dfy`, module `ServiceTests`: one method per test case. Each
  runs on a fresh, cleared service. Each method's postcondition is that test's
  assertion, proved from the service's contracts alone.

Ids are the decimal numerals of a counter that only grows. `DecimalRoundTrip`
proves that reading a numeral back gives its counter value. So a new id differs
from every stored id, all of which are numerals of smaller counter values.

## Model

| member | source | states |
|---|---|---|
| `Users.StatusText` | test/userService.clean.test.js:33 | the status text is `ativo` exactly for an active user and `inativo` exactly for an inactive one |
| `Users.DecimalRoundTrip` | test/userService.clean.test.js:29 | the id string made from a counter value reads back as that value, so generated ids are distinguishable |
| `Users.DecimalStringInjective` | test/userService.clean.test.js:29 | two counter values give the same id string if and only if they are equal |
| `Users.Lookup` | test/userService.clean.test.js:62-65 | lookup finds nothing exactly when no stored user has the id; what it finds is a stored user with that id |
| `Users.LookupFindsMember` | test/userService.clean.test.js:62-65 | when ids are unique, looking up a stored user's id yields exactly that user |
| `Users.AppendFresh` | test/userService.clean.test.js:57-66 | a user stored under the next counter numeral has an id no stored user has; the list stays well formed; lookup of the new id returns the new user |
| `Users.DeactivateAt` | test/userService.clean.test.js:70-80 | making a non-admin user inactive keeps the list well formed, and lookup of its id then shows it inactive |
| `Report.ReportStartsWithHeader` | test/userService.clean.test.js:104 | every report begins with `--- Relatório de Usuários ---` |
| `Report.ReportEmptyExactly` | test/userService.clean.test.js:108-114 | the report equals the empty-state text if and only if there are no users |
| `Report.LineInUserLines` | test/userService.clean.test.js:105 | every user's report line occurs in the report's user lines |
| `Report.SeparatedMatches` | test/userService.clean.test.js:105 | where `a b c` occurs, `a`, then `b`, then `c` follow one another with no line break between them, as `a.*b.*c` requires |
| `Report.LineMatches` | test/userService.clean.test.js:105 | wherever a user's line occurs, `ID: <id>`, `Nome: <nome>` and `Status: <status>` follow one another on one line |
| `Report.ReportListsUser` | test/userService.clean.test.js:96-106 | for every stored user, the report matches `ID: <id>.*Nome: <nome>.*Status: <status>` |
| `UserDirectory.UserService.constructor` | test/userService.clean.test.js:7 | a new service is valid, holds no users, and its id counter starts at zero |
| `UserDirectory.UserService.ClearDB` | test/userService.clean.test.js:8 | after the reset the service holds no users and stays valid; the id counter is kept |
| `UserDirectory.UserService.CreateUser` | test/userService.clean.test.js:12-53 | an age under 18 fails with the legal-age message and stores nothing; otherwise the result is an active user with the given name, email, age and admin flag and a fresh id, the numeral of the counter, which then grows by one; the user is appended to the list and retrievable by its id |
| `UserDirectory.UserService.IndexOf` | test/userService.clean.test.js:62 | the linear search returns -1 exactly when no stored user has the id, otherwise the position of the user that lookup finds |
| `UserDirectory.UserService.GetUserById` | test/userService.clean.test.js:56-66 | the result is none exactly when no user has the id; otherwise it is the stored user with that id |
| `UserDirectory.UserService.DeactivateUser` | test/userService.clean.test.js:69-92 | answers true exactly for a non-admin user; then only that user changes, to inactive; an admin stays active and nothing changes; lookup of the id afterwards shows `inativo` or `ativo` accordingly |
| `UserDirectory.UserService.GenerateUserReport` | test/userService.clean.test.js:95-114 | the report begins with the header; it is the empty-state text exactly when there are no users; it shows each user's id, then name, then status on one line |
| `ServiceTests.FreshService` | test/userService.clean.test.js:6-9 | a new service after the reset is valid and empty |
| `ServiceTests.CreatesUserWithValidData` | test/userService.clean.test.js:12-35 | creating John Doe, aged 25, succeeds with the given name, email and age and status `ativo` |
| `ServiceTests.RejectsUserUnder18` | test/userService.clean.test.js:37-53 | creating a user aged 17 fails with `O usuário deve ser maior de idade.`, and no user is stored |
| `ServiceTests.RetrievesUserById` | test/userService.clean.test.js:57-66 | the user retrieved by the created user's id equals the created user |
| `ServiceTests.DeactivatesNonAdminUser` | test/userService.clean.test.js:70-80 | deactivating a regular user answers true, and the user is then `inativo` |
| `ServiceTests.DoesNotDeactivateAdminUser` | test/userService.clean.test.js:82-92 | deactivating an admin answers false, and the admin is still `ativo` |
| `ServiceTests.ReportShowsUser` | test/userService.clean.test.js:96-106 | with Alice stored, the report begins with the header and matches `ID: <her id>.*Nome: Alice.*Status: ativo` |
| `ServiceTests.ReportWhenEmpty` | test/userService.clean.test.js:108-114 | with no users, the report is exactly `--- Relatório de Usuários ---\nNenhum usuário cadastrado.` |

## Left out

- The implementation file `src/userService.js` is not part of this model. The behaviour is taken from the test file's assertions.
- The test framework's plumbing (`describe`, `test`, `beforeEach`, `expect`) is left out. Each test case is a method on a fresh service instead.
- The id format is not asserted by the tests, which only require a string. The model uses the decimal numeral of a counter that `ClearDB` does not reset, so ids are never reused.
- The source may keep its user collection outside the instance, since each test clears it right after `new UserService()`. The model gives each service its own list, so `ClearDB` only matters within one instance, and a new service starts empty.
- UserDirectory.UserService.DeactivateUser: requires that a user with the id exists. No test deactivates an unknown id, so the model gives that case no outcome.
- Deactivating a user who is already inactive follows the same rule as any non-admin: the answer is true and the user stays inactive. No test asserts this case.
- Looking up an unknown id yields `None`. No test asserts this case; the model needs some explicit outcome.
- The age error is an exception in the source. Here it is a `Failure` result that carries the same message.
- Beyond the header and the asserted fields, the report's line layout is not asserted. The model's line is `ID: <id> Nome: <nome> Status: <status>`. Lines follow the header, each after a line break, in insertion order.
- Regular expressions are not modelled in general. `MatchesInOrder` states only what the one pattern `a.*b.*c` asserts: ordered occurrences with no line terminator between them.
- JavaScript's dynamic typing is not modelled: arguments of the wrong type, and ages that are not integers.
- The returned user is a value in the model. The source hands out an object, so any aliasing between that object and the stored record is not modelled.
