# UsersController in Dafny

A model of `UsersController` from `src/users/users.controller.ts`, a NestJS
controller that keeps user records `{ id, name, email }` in an in-memory,
ordered array seeded with eight users. It lists users, fetches one by id,
creates one (with an email check and a generated id), updates one by merging
a request body into it, and deletes one.

The model has these modules:

- `Wrappers` (`wrappers.dfy`): `Option` and `Result`.
- `JsString` (`js_string.dfy`): the `indexOf`, `lastIndexOf`, `startsWith`
  and `endsWith` string searches that the email check uses.
- `Decimal` (`decimal.dfy`): `parseInt` on strings of digits and
  `toString` on naturals, which is all the id generation uses.
- `Email` (`email.dfy`): `validateEmail` as the function `ValidateEmail`.
  It returns `None` for an accepted address and otherwise the first of the
  six rules that fails. Lemmas describe the verdict on any address, split
  at its first `@`, without referring to string searches.
- `UsersController` (`users_controller.dfy`): the `User` record, the update
  body `Patch` (each field absent or present, where present may be empty),
  the `Error` kinds, the `find`/`findIndex` lookups, the `maxId` fold, and
  the class `Store`. `Store` has a `users: seq<User>` field and one method
  per endpoint. The methods that change `users` (`CreateUser`, `DeleteUser`,
  `UpdateUser`) state the whole new state in terms of the old one.
- `Scenarios` (`scenarios.dfy`): clients of `Store` showing what callers can
  conclude from its contracts.

Thrown exceptions become `Err` values:

- `BadRequest(MissingFields)` or `BadRequest(EmailTaken)`: the two
  BadRequestException messages.
- `NotFound`.
- `Unprocessable(rule)`: `rule` names which email check failed.

JavaScript's test of a string field for truth (`!body.name`,
`if (body.email)`) becomes `Truthy`: the field is present and non-empty.

Some behaviours of the code are easy to misread; the model follows the code:

- The update merges the whole request body (`{ ...user, ...body }`), so an
  `id` in the body replaces the stored id. `Scenarios.IdInPatchCollides`
  shows two records ending up with the same id.
- The update skips both email checks for an empty email but still writes
  it. So uniqueness of emails is not kept in general: after two such updates
  two records share the email `""` (`Scenarios.EmptyEmailUpdatesCollide`).
  `UpdateUser` keeps emails unique whenever the body's email is not the
  empty string. `CreateUser` and `DeleteUser` always keep them unique.
- The duplicate-email check on update looks at every record, the target
  included. Sending back a user's own current, non-empty email is refused
  (`Scenarios.UpdateToTakenEmail`); sending back `""` is accepted.
- An id that does not parse does not count as 0: `parseInt` gives `NaN`,
  `Math.max` passes it on, and the new id becomes `"NaN"`. The model does
  not cover non-numeric ids at all (see Left out).

## Model

| member | source | states |
|---|---|---|
| `JsString.IndexOf` | src/users/users.controller.ts:32 | `indexOf` gives -1 exactly when the character is absent, and otherwise the position of its first occurrence |
| `JsString.LastIndexOf` | src/users/users.controller.ts:32 | `lastIndexOf` gives -1 exactly when the character is absent, and otherwise the position of its last occurrence |
| `JsString.IndexOfSplit` | src/users/users.controller.ts:37 | in `local + [c] + rest` with no `c` in `local`, the first `c` is at index `|local|` |
| `JsString.StartsWith` | src/users/users.controller.ts:49 | `domain.startsWith('.')`; its use is described by `Email.ValidateSplit` (the domain's first character is a dot) |
| `JsString.EndsWith` | src/users/users.controller.ts:44 | `domain.endsWith('.')`; its use is described by `Email.ValidateSplit` (the domain's last character is a dot) |
| `JsString.LastIndexOfSplit` | src/users/users.controller.ts:32 | in the same split, that `c` is also the last one exactly when `rest` holds no `c` |
| `Decimal.ParseDecimal` | src/users/users.controller.ts:80 | `parseInt` on a numeral; described by `Decimal.ParsePrinted` (it reads back every number `toString` prints) |
| `Decimal.NatToDecimal` | src/users/users.controller.ts:83 | `toString` of a natural is a non-empty digit string, and it has no leading zero unless the number is 0 |
| `Decimal.ParsePrinted` | src/users/users.controller.ts:80-83 | `parseInt` of the numeral `toString` prints for `n` gives `n` back |
| `Decimal.PrintedInjective` | src/users/users.controller.ts:83 | distinct naturals print as distinct ids |
| `Email.ValidateEmail` | src/users/users.controller.ts:23-52 | `validateEmail`; described by `Email.RejectsWithoutAt`, `Email.ValidateSplit` and `Email.AcceptsExactly` (the first failing check for every address, and exactly which addresses pass) |
| `Email.RejectsWithoutAt` | src/users/users.controller.ts:24-26 | an address without `@` is reported as missing its `@` |
| `Email.SplitAtFirstAt` | src/users/users.controller.ts:37-38 | any address with an `@` is `local + "@" + domain` with no `@` in `local` |
| `Email.ValidateSplit` | src/users/users.controller.ts:23-52 | for `local@domain` split at its first `@`, the reported rule is the first failing one of: a space anywhere, another `@` in the domain, no dot in the domain, the domain ending in a dot, the domain starting with a dot; with none failing the address is accepted |
| `Email.AcceptsExactly` | src/users/users.controller.ts:23-52 | an address is accepted exactly when it has one `@` in all, no space, and a domain that holds a dot but neither starts nor ends with one |
| `Email.AcceptedHasOneAt` | src/users/users.controller.ts:28-34 | every accepted address has exactly one `@` and no space |
| `Email.ExampleMissingAt` | src/users/users.controller.ts:24-26 | `"no-at-sign.com"` fails the `@` check |
| `Email.ExampleContainsSpace` | src/users/users.controller.ts:28-30 | `"has space@example.com"` fails the space check |
| `Email.ExampleMultipleAt` | src/users/users.controller.ts:32-34 | `"a@b@example.com"` fails the single-`@` check |
| `Email.ExampleDomainWithoutDot` | src/users/users.controller.ts:40-42 | `"user@nodot"` fails the domain-dot check |
| `Email.ExampleDomainEndsWithDot` | src/users/users.controller.ts:44-46 | `"user@example."` fails the trailing-dot check |
| `Email.ExampleDomainStartsWithDot` | src/users/users.controller.ts:49-51 | `"user@.example.com"` fails the leading-dot check |
| `Email.ExampleAccepted` | src/users/users.controller.ts:23-52 | `"user@example.com"` passes all six checks |
| `UsersController.IndexOfId` | src/users/users.controller.ts:93 | `findIndex` by id gives -1 exactly when no record has the id, and otherwise the first position holding it |
| `UsersController.Truthy` | src/users/users.controller.ts:70 | the truth test of a string field at lines 70 and 108: present and non-empty; its effect is stated by the error cases of `UsersController.Store.CreateUser` and `UsersController.Store.UpdateUser` |
| `UsersController.FindByEmail` | src/users/users.controller.ts:76 | `find` by email finds a record exactly when some record has that email, and the record it gives is stored and has that email |
| `UsersController.MaxIdFrom` | src/users/users.controller.ts:80 | the `reduce` fold is at least its start value and every parsed id, and it equals the start value or one of the parsed ids |
| `UsersController.MaxId` | src/users/users.controller.ts:80 | `maxId`, the fold started at 0; described by `UsersController.MaxIdFrom` (at least every parsed id, and 0 or one of them) |
| `UsersController.Merge` | src/users/users.controller.ts:116 | `{ ...user, ...body }`; described by the field-by-field ensures of `UsersController.Store.UpdateUser` (a field present in the body wins, an absent one is kept) |
| `UsersController.NewIdIsFresh` | src/users/users.controller.ts:80-83 | when every id is a numeral, the id `createUser` computes is held by no record |
| `UsersController.RemovedIdIsGone` | src/users/users.controller.ts:93-97 | in a store with unique ids, removing the first record with an id leaves no record with that id |
| `UsersController.Seed` | src/users/users.controller.ts:12-21 | the eight seeded records; described by `UsersController.SeedIds`, `UsersController.SeedEmails` and `UsersController.SeedNextId` |
| `UsersController.SeedIds` | src/users/users.controller.ts:12-21 | the seed has eight records whose ids are distinct numerals |
| `UsersController.SeedEmails` | src/users/users.controller.ts:12-21 | the seed's emails are distinct |
| `UsersController.SeedIdsCount` | src/users/users.controller.ts:12-21 | the seeded ids parse to 1, 2, ... 8 in order |
| `UsersController.MaxIdOfCounting` | src/users/users.controller.ts:80 | when the ids parse to 1, 2, ... n in order, `maxId` is n |
| `UsersController.SeedNextId` | src/users/users.controller.ts:12-21 | in the seeded store the next id is `"9"` |
| `UsersController.Store.constructor` | src/users/users.controller.ts:12 | a store starts with the given records |
| `UsersController.Store.Seeded` | src/users/users.controller.ts:12-21 | the controller's store starts with the eight seeded records |
| `UsersController.Store.GetUsers` | src/users/users.controller.ts:55-57 | `getUsers` gives every record, in order, and changes nothing |
| `UsersController.Store.GetUser` | src/users/users.controller.ts:60-66 | `getUser` gives NotFound exactly when no record has the id, and otherwise the first record with it; nothing changes |
| `UsersController.Store.CreateUser` | src/users/users.controller.ts:69-89 | missing or empty fields give BadRequest(MissingFields), then a bad email gives Unprocessable with its rule, then a used email gives BadRequest(EmailTaken); it succeeds exactly when none applies; an error leaves `users` unchanged; success appends one record whose id is the decimal of `maxId + 1`, is held by no earlier record, and whose name and email are the inputs; unique ids, unique emails and numeric ids are kept |
| `UsersController.Store.DeleteUser` | src/users/users.controller.ts:92-99 | NotFound with no change exactly when no record has the id; otherwise exactly the first record with the id is removed, the others keep their order, and the length drops by one; uniqueness and numeric ids are kept, and with unique ids the id is gone afterwards |
| `UsersController.Store.UpdateUser` | src/users/users.controller.ts:102-118 | NotFound first, then for a non-empty email Unprocessable with its rule, then BadRequest(EmailTaken) if any record (the target included) has it; it succeeds exactly when none applies; an error leaves `users` unchanged; success changes only the first record with the id, each field taken from the body when present there and kept otherwise, and returns that record; emails stay unique unless the body's email is empty, and ids stay unique and numeric unless the body brings another id |
| `Scenarios.CreateThenGet` | src/users/users.controller.ts:60-88 | fetching a just-created user by its new id gives back that user |
| `Scenarios.DeleteThenGet` | src/users/users.controller.ts:60-98 | in a store with unique ids, after a delete, fetching the deleted id gives NotFound |
| `Scenarios.UpdateToTakenEmail` | src/users/users.controller.ts:108-113 | updating a record with a non-empty, valid email some record already has (its own included) gives BadRequest(EmailTaken) and changes nothing |
| `Scenarios.AliceEmailIsValid` | src/users/users.controller.ts:23-52 | `"alice@example.com"` passes the email check |
| `Scenarios.AliceEmailIsNew` | src/users/users.controller.ts:12-21 | no seeded record has `"alice@example.com"` |
| `Scenarios.CreateAfterEight` | src/users/users.controller.ts:80-88 | creating a user with a non-empty name and a new, valid email in a store whose largest id is 8 gives id `"9"` and appends that record |
| `Scenarios.EmptyEmailUpdatesCollide` | src/users/users.controller.ts:108-116 | two updates that set the email to `""` both succeed and leave two records with the same email |
| `Scenarios.IdInPatchCollides` | src/users/users.controller.ts:116 | an update whose body carries another record's id succeeds and leaves two records with the same id |

## Left out

- NestJS decorators, HTTP routing, status codes and dependency injection are not modelled. The errors are returned as values, and the layer above maps them to responses.
- `CreateUserDto` (`src/users/user.dto.ts`) is not part of this model. A create request is two optional strings.
- Request bodies with fields other than `id`, `name` and `email` are not modelled. Neither are fields holding `null`, numbers or other non-string JSON values. `Patch` holds only the three fields as optional strings.
- UsersController.Store.CreateUser: requires every stored id to be a decimal numeral. The model does not cover `parseInt` reading only a prefix (`"12ab"` as 12), skipping whitespace or signs, or returning `NaN` (which makes the new id `"NaN"`).
- UsersController.MaxIdFrom: ids are unbounded naturals. The model does not cover JavaScript numbers losing precision above 2^53, or `toString` switching to exponent notation at 1e21.
- UsersController.NewIdIsFresh: freshness rests on reading ids as unbounded naturals. In the program, a store holding id `"9007199254740992"` (2^53) gets `maxId + 1` rounded back to 2^53, so line 83 issues that id again. Once `maxId + 1` reaches 1e21, line 83 prints it in exponent form (`"1e+21"`), which is not a decimal numeral. So in the program the freshness postcondition of `UsersController.Store.CreateUser` is guaranteed while every id is at most 2^53 − 1, and its `DecimalIds` postcondition while `maxId + 1` is below 1e21.
- Aliasing is not modelled. `getUsers` returns the live array, and `getUser`, `createUser` and `updateUser` return stored objects, but the model returns values.
- Exception message texts are not modelled. The `Rule` and `BadRequestReason` tags say which message would be thrown.
- The delete confirmation `{ message: 'User deleted successfully' }` is modelled as `Ok(())`.
