# Helpdesk API mock server, modelled in Dafny

This project models the in-memory fake of the helpdesk API that the Cypress
suite can install with `setupMockServer` (`cypress/support/mock-server.js`).
The fake keeps two tables, `users` and `tickets`, and two id counters,
`nextUserId` and `nextTicketId`. Its route handlers create, read, update and
delete records in those tables.

The model has five modules:

- `Json`: JSON values, records as `map<string, Value>`, JavaScript truthiness,
  and object spread `{...a, ...b}` as right-biased map union (`Spread`).
- `Url`: `parseInt(req.url.split('/').pop())`, as `LastSegment` followed by a
  decimal `ParseInt` whose `None` stands for NaN, with round-trip lemmas.
- `Tables`: `findIndex`, `find` and `splice(i, 1)` over a table, the
  `r.id === id` test, and lemmas on how a lookup behaves after a push, an
  in-place replacement or a removal.
- `Records`: the records built by the create and update handlers.
- `MockServer`: the class `MockStore`, which holds the module state. Each
  route handler is a method with `modifies this`. It takes the request URL,
  the JSON body and the current time `now`, and returns a `Response` (status
  code, optional body).

The model follows the code of `mock-server.js`, not the behaviour that the
test files expect of the real server. The fake differs from that server in
several places:

- It validates nothing. There is no 400 for missing fields and no 409 for a
  duplicate name or email.
- A ticket's `userId` is never looked up.
- A body `id` overrides the allocated id.
- A body may overwrite `createdAt` on update.
- Its error messages have no trailing period.
- Delete replies 204 with no body.
- Update merges the whole body, not just chosen fields.

Each method's contract states what the code does.

MockStore has a ghost log of the ids each counter has handed out since the
last reset. `Valid()` says the log is exactly 1, 2, ..., next − 1. From this,
`CreateUser` and `CreateTicket` prove that the id they take was never handed
out before.

## Model

| member | source | states |
|---|---|---|
| `Json.Truthy` | cypress/support/mock-server.js:135 | JavaScript truthiness as `\|\|` tests it: a property read is falsy exactly when it is absent or one of null, false, 0 and "" |
| `Json.Spread` | cypress/support/mock-server.js:29-33 | `{...a, ...b}` has the keys of both objects; on a shared key the right-hand value wins, and keys only in `a` keep their value |
| `Url.LastSegment` | cypress/support/mock-server.js:46 | `split('/').pop()` gives the suffix after the last '/' (the whole string if there is none); it contains no '/' |
| `Url.ParseInt` | cypress/support/mock-server.js:46 | `parseInt` gives NaN (None) exactly when no digit follows the optional sign; a leading '-' gives a result ≤ 0, otherwise the result is ≥ 0 |
| `Url.ParseIntRoundTrip` | cypress/support/mock-server.js:46 | `parseInt` reads back any integer written in decimal, followed by any text that does not start with a digit |
| `Url.LastSegmentAfterSlash` | cypress/support/mock-server.js:46 | the last segment of `prefix/seg` is `seg` whenever `seg` holds no '/' |
| `Url.IdFromUrl` | cypress/support/mock-server.js:46 | `parseInt(req.url.split('/').pop())`; a URL that is empty or ends in '/' gives NaN |
| `Url.IdFromUrlDefined` | cypress/support/mock-server.js:70 | the parsed id is a number exactly when the last segment starts with a digit, or with a sign and then a digit; otherwise it is NaN |
| `Url.IdFromUrlOfPath` | cypress/support/mock-server.js:46 | a request to `<anything>/<n>` addresses id n |
| `Url.NatToStringValue` | cypress/support/mock-server.js:46 | the decimal digits written for a natural number denote that number |
| `Url.LeadingDigitsOfDigitsThen` | cypress/support/mock-server.js:46 | the digit prefix scan stops exactly where the digits end |
| `Tables.HasId` | cypress/support/mock-server.js:47 | `u.id === userId`: NaN matches no record, a record matches only the number its own `id` holds, and a non-number `id` (such as the string "1") matches nothing |
| `Tables.FindIndex` | cypress/support/mock-server.js:71 | `findIndex` gives the index of the first record whose `id` strictly equals the parsed id, or -1 exactly when none does; NaN matches nothing |
| `Tables.Find` | cypress/support/mock-server.js:47 | `find` gives `undefined` exactly when no record matches; otherwise it gives the first matching record |
| `Tables.RemoveAt` | cypress/support/mock-server.js:103 | `splice(i, 1)` shortens the table by one; records before i stay in place and later ones move down by one, in order |
| `Tables.FindIndexAfterPush` | cypress/support/mock-server.js:34 | after a push, a lookup finds the old first match if there was one; otherwise it finds the new record if that matches, and nothing if not |
| `Tables.FindIndexAfterReplace` | cypress/support/mock-server.js:74-78 | replacing the first match with a record that still matches keeps the match at the same index |
| `Tables.FindIndexAfterRemove` | cypress/support/mock-server.js:100-103 | after the only record with an id is spliced out, a lookup of that id finds nothing, so a second delete replies 404 |
| `Tables.FindIndexAfterRemoveOther` | cypress/support/mock-server.js:103 | a delete leaves a lookup of any other id finding the same record; its index drops by one if it came after the removed record |
| `Records.TicketStatus` | cypress/support/mock-server.js:135 | `body.status \|\| 'Open'` is "Open" when status is absent, null, false, 0 or ""; otherwise it is the body's own status value |
| `Records.NewUser` | cypress/support/mock-server.js:29-33 | the new user has the body's keys plus `id` and `createdAt`; `createdAt` is always now; `id` is the body's if given, else the allocated one; all other body keys are copied |
| `Records.NewTicket` | cypress/support/mock-server.js:132-137 | as for users, plus `status` set to `body.status \|\| 'Open'`; a body `status` or `createdAt` is overridden |
| `Records.Updated` | cypress/support/mock-server.js:74-78 | the merged record keeps every old key, takes every body key (body wins), and stamps `updatedAt` with now |
| `MockServer.MockStore.constructor` | cypress/support/mock-server.js:3-6 | when the module loads, both tables are empty and both counters are 1 |
| `MockServer.MockStore.Setup` | cypress/support/mock-server.js:11-14 | `setupMockServer` empties both tables and resets both counters to 1 |
| `MockServer.MockStore.CreateUser` | cypress/support/mock-server.js:28-42 | takes exactly one user id (counter + 1, never handed out before); appends the new user and changes no earlier record; replies 201 with it; ticket state unchanged; any body accepted |
| `MockServer.MockStore.GetUser` | cypress/support/mock-server.js:45-66 | replies 200 exactly when some user matches the URL's id, with the first such user; otherwise 404 `User not found`; the store is not changed |
| `MockServer.MockStore.UpdateUser` | cypress/support/mock-server.js:69-95 | on a match, only the first matching slot is replaced by the merged record and the reply is 200 with it; otherwise 404 and nothing changes; counters and tickets are untouched |
| `MockServer.MockStore.DeleteUser` | cypress/support/mock-server.js:98-119 | on a match, the first matching user is spliced out and the reply is 204 with no body; otherwise 404 and nothing changes; the counter is not rolled back |
| `MockServer.MockStore.CreateTicket` | cypress/support/mock-server.js:131-146 | takes exactly one ticket id (counter + 1, never handed out before); appends the new ticket; replies 201 with it; user state unchanged; any body and any `userId` accepted |
| `MockServer.MockStore.GetTicket` | cypress/support/mock-server.js:149-170 | replies 200 exactly when some ticket matches the URL's id, with the first such ticket; otherwise 404 `Ticket not found`; the store is not changed |
| `MockServer.MockStore.UpdateTicket` | cypress/support/mock-server.js:173-199 | on a match, only the first matching slot is replaced by the merged record and the reply is 200 with it; otherwise 404 and nothing changes |
| `MockServer.MockStore.DeleteTicket` | cypress/support/mock-server.js:202-223 | on a match, the first matching ticket is spliced out and the reply is 204 with no body; otherwise 404 and nothing changes |
| `MockServer.FoundAfterCreate` | cypress/support/mock-server.js:29-34 | if the body has no `id` and no earlier record has the allocated id, a later lookup of that id finds the new record |
| `MockServer.FoundAfterUpdate` | cypress/support/mock-server.js:74-78 | if the body has no `id`, a later lookup of the same id finds the updated record at the same index |
| `MockServer.NewUserOfEmptyBody` | cypress/support/mock-server.js:29-33 | with an empty body the stored user is exactly `{id, createdAt}` |
| `MockServer.DeletedUserIdIsNotReused` | cypress/support/mock-server.js:98-108 | after two creates and a delete of id 2, deleting id 2 again gives 404 and the next create gets id 3, not the freed 2 |

## Left out

- The Cypress plumbing: `cy.intercept` registration, glob matching on `users/*` and `tickets/*`, `req.reply`, response headers and `.as(...)` aliases. Handlers are called directly. Which handler a URL reaches (for example `/tickets/1/status`) is decided by the framework and is not modelled.
- The clock. `new Date().toISOString()` becomes the parameter `now`; ISO-8601 formatting is not modelled.
- The `GET /users` and `GET /tickets` list routes (lines 19-25 and 122-128). Their body is given when the route is registered. Whether the framework serves that snapshot or the live array cannot be seen in the source.
- Url.ParseInt: only an optional sign followed by decimal digits is parsed. Leading whitespace, the `0x` prefix, and the loss of precision above 2^53 are not modelled.
- Json.Value: numbers are integers. Fractions, NaN and infinities in bodies are left out, and so is the difference between `-0` and `0`.
- Request bodies are JSON objects. A missing or non-object body, such as a string or `null`, is left out. The spread of a string and `null.status` throwing are not modelled.
- Key order of JavaScript objects: records are maps, so the order in which keys are serialised is not captured.
- The `*.cy.js` test files, `api-commands.js`, `commands.js`, `schema-validator.js`, `data-generator.js`, `cypress.config.js` and `e2e.js`. They are HTTP wrappers, wrappers over Ajv or faker, configuration, or assertions about an external server; none of them calls `setupMockServer`. Their expectations (409 conflicts, 400 validation, messages ending in a period, a 200 delete with a body) are not part of the fake and are not modelled.
- Concurrency: the fake runs single-threaded JavaScript, and each handler runs to completion.
