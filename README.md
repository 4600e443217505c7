# User registry of the Express user-management API, in Dafny

The API keeps its users in one ordered, in-memory list of `{id, name, email}`
records (`users` in `app.js`). Six seed records are loaded at start-up. The
route handlers act on that list:

- GET `/users` returns the list as stored.
- GET `/users/filter` narrows it. It keeps the records whose `name` and/or
  `email` contains the query, ignoring case.
- GET `/users/:id` returns the first record with the id, or "not found".
- POST `/users` appends a record. Its id is the number of records plus one.
- PUT `/users/:id` overwrites `name` and `email` of the first record with the
  id, but only with values that are truthy.
- DELETE `/users/:id` splices the first record with the id out of the list.

This project models that registry and proves what each handler does to it.

- `wrappers.dfy` (module `Wrappers`): `Option` and `Result`.
- `text.dfy` (module `Text`): lower-casing and the substring search
  (`includes`) that the filter uses. The search is proved equal to the
  declarative "occurs as a block" definition.
- `users.dfy` (module `Users`): the `User` record and the pure operations on a
  list of users. These are `FindIndex` and `Lookup` (`find` / `findIndex`),
  `FilterByField` and `Filter` (`filter`), and the transitions the writing
  handlers apply: `NewUser`, `Patch` and `RemoveAt`. The lemmas about them
  are here too.
- `registry.dfy` (module `Registry`): class `UserRegistry`. It holds the list
  in a `seq<User>` field. The reading handlers are functions that read it.
  `Create`, `Update` and `Delete` are methods that change it. Each method's
  contract gives the new list in terms of the old one. The invariant
  `Valid()` (every id is positive) is kept by every method.
- `scenarios.dfy` (module `Scenarios`): facts about the seed list, the filter
  queries of the route tests on it, and two request sequences on a fresh
  registry.

Modelling choices:

- A route id arrives already parsed, as `Option<int>`. `None` stands for the
  `NaN` that `parseInt` gives for a non-numeric segment. It equals no id.
- `name` and `email` are `Option<string>`. `None` is a field the request left
  out (`undefined`). "Truthy" means present and non-empty, as in `if (name)`
  and `name || user.name`.
- A record whose field is `undefined` makes the filter call `toLowerCase` on
  `undefined` (app.js:29, app.js:32). That is a `TypeError`. The model returns
  `Err(UndefinedField(f))` for it and does not treat it as a non-match.
- Ids are not unique. The id `users.length + 1` (app.js:53) can repeat an
  id that is still stored after a splice (app.js:75). So uniqueness is not
  part of `Valid()`, and `Users.DeleteThenCreateDuplicatesId` and
  `Scenarios.DeleteThenCreate` prove that it can be lost. Because ids can
  repeat, every lookup is stated as finding the first record with the id.

## Model

| member | source | states |
|---|---|---|
| `Text.LowerChar` | app.js:29 | `toLowerCase` on one character: the result is never an upper-case ASCII letter, an upper-case letter moves to its lower-case partner, anything else is kept |
| `Text.Lower` | app.js:29 | `toLowerCase` on a string, character by character; `Text.LowerIdempotent` states that lower-casing twice is lower-casing once |
| `Text.LowerIdempotent` | app.js:29 | lower-casing an already lower-cased string changes nothing |
| `Text.IncludesIgnoringCase` | app.js:29 | `a.toLowerCase().includes(b.toLowerCase())`; `Text.IncludesIgnoringCaseInvariant` and `Text.IncludesIgnoringCaseOfBlock` state its contract |
| `Text.Includes` | app.js:29 | `s.includes(q)` holds exactly when `q` occurs in `s` as a contiguous block, in both directions |
| `Text.IncludesIgnoringCaseInvariant` | app.js:29 | lower-casing the text or the query first does not change whether the case-insensitive search finds the query |
| `Text.IncludesIgnoringCaseOfBlock` | app.js:29 | any block of the text is found by the case-insensitive search |
| `Text.MissingCharNotIncluded` | app.js:29 | a query that holds a character the text lacks is not found |
| `Users.Seed` | app.js:8-15 | the six start-up records, record for record; `Scenarios.SeedFacts` states their ids and uniqueness |
| `Users.Truthy` | app.js:28 | the truthiness test `if (name)` / `if (email)` on a query value: present and non-empty; used by every contract about the filter and the update |
| `Users.OrElse` | app.js:64-65 | `v || fallback` yields `v` when `v` is truthy and `fallback` when `v` is falsy, and is truthy exactly when one of them is |
| `Users.HasId` | app.js:45 | the test `u.id === parseInt(req.params.id)`, with `NaN` equal to no id; `Users.FindIndex` and `Users.Lookup` state the searches built on it |
| `Users.FindIndex` | app.js:72 | `findIndex` gives the position of the first record with the id; when it finds none, no record has the id |
| `Users.Lookup` | app.js:45-46 | `find` plus the not-found check gives a stored record with the id, and no earlier record has that id; it gives `NotFound` exactly when no stored record has the id |
| `Users.Matches` | app.js:29 | the filter callback `u.<f>.toLowerCase().includes(q.toLowerCase())` for a record whose field is defined (an undefined field is handled by `Users.FilterByField` before it is consulted); `Users.FilterByFieldKeeps` and `Scenarios.BlockMatches` / `Scenarios.LacksLetter` state when it holds |
| `Users.FilterByField` | app.js:29 | one `filter` call of app.js:29 or app.js:32; its contract is stated by `Users.FilterByFieldFails`, `Users.FilterByFieldKeeps` and `Users.FilterByFieldSpec` |
| `Users.Filter` | app.js:26-33 | the name test then the email test, each only when its parameter is truthy; its contract is stated by `Users.FilterFails`, `Users.FilterKeeps` and `Users.FilterSpec` |
| `Users.FilterByFieldFails` | app.js:28-33 | one `filter` call raises the TypeError exactly when some record lacks the field it lower-cases |
| `Users.FilterByFieldKeeps` | app.js:29 | a `filter` call that succeeds keeps exactly the matching records, each as often as stored, in stored order |
| `Users.FilterByFieldSpec` | app.js:29 | one `filter` call fails with a TypeError exactly when some record lacks the field; otherwise it keeps exactly the matching records, each as often as stored, in stored order |
| `Users.FilterFails` | app.js:26-33 | GET `/users/filter` fails exactly when a record that reaches a switched-on test lacks that test's field |
| `Users.FilterKeeps` | app.js:26-33 | a successful GET `/users/filter` returns exactly the records that pass every switched-on test, each as often as stored, in stored order |
| `Users.FilterSpec` | app.js:26-35 | with no truthy parameter the filter returns the whole list; otherwise it returns exactly the records that pass both switched-on tests, in order; it fails exactly when a record that reaches a test lacks that test's field |
| `Users.FilterByFieldCons` | app.js:29 | one step of `filter`: the first record is kept exactly when it matches |
| `Users.FilterByFieldMembers` | app.js:29 | every record a filter returns comes from its input and matches the query |
| `Users.FilterByFieldAllMatching` | app.js:29 | a filter that every record passes returns the list unchanged |
| `Users.FilterIdempotent` | app.js:26-33 | filtering a filter result again with the same parameters gives the same result |
| `Users.FilterByFieldsCommute` | app.js:28-33 | on records with both fields defined, the name test and the email test can run in either order with the same result |
| `Users.NewUser` | app.js:53 | the record POST builds, with id `users.length + 1`; `Registry.UserRegistry.Create`, `Users.CreatedIsFoundUnlessShadowed` and `Users.DeleteThenCreateDuplicatesId` state what follows from it |
| `Users.Patch` | app.js:64-65 | `name || user.name` and `email || user.email` on the found record; `Users.PatchIdempotent`, `Users.PatchWithoutValues` and `Registry.UserRegistry.Update` state its contract |
| `Users.RemoveAt` | app.js:75 | `splice(i, 1)` leaves one record fewer: the records before `i` stay in place and the later ones move up by one |
| `Users.RemoveAtKeepsOthersInOrder` | app.js:75 | the splice removes exactly one occurrence of the record at `i` and keeps the others in their relative order |
| `Users.LookupAfterAppend` | app.js:44-56 | after a push, a lookup still finds the earlier record with the id if there is one; otherwise it finds the pushed record if that has the id, and nothing if not |
| `Users.CreatedIsFoundUnlessShadowed` | app.js:44-56 | GET by a newly created record's id returns that record exactly when no older record already has the id; otherwise it returns the older record |
| `Users.DeleteOfUniqueIdIsFinal` | app.js:71-77 | when ids are unique, deleting a record makes its id unknown, so a repeated GET/PUT/DELETE of that id yields `NotFound` |
| `Users.DeleteThenCreateDuplicatesId` | app.js:51-77 | ids are not unique in general: if the last record's id equals the list length, deleting an earlier record and then creating one gives the new record the last record's id |
| `Users.PatchIdempotent` | app.js:64-65 | sending the same PUT body twice leaves the record as the first PUT left it |
| `Users.PatchWithoutValues` | app.js:64-65 | a PUT whose `name` and `email` are both falsy leaves the record unchanged |
| `Scenarios.SeedFacts` | app.js:8-15 | the seed list has six records with ids 1 to 6, all distinct and positive; id 1 is John Doe with john@example.com; ids 999 and `NaN` are not found |
| `Scenarios.SeedShape` | app.js:8-15 | the seed list has six records, John Doe first, and no id reaches 999 |
| `Scenarios.BlockMatches` | app.js:29 | a field that holds, at some position, a block equal to the query up to case passes that field's test |
| `Scenarios.LacksLetter` | app.js:29 | a field that, lower-cased, lacks a letter of the lower-cased query fails that field's test |
| `Scenarios.JohnDoeMatches` | app.js:9 | John Doe passes a name test spelt "john" in any case, and an e-mail test spelt "example.com" in any case |
| `Scenarios.JaneSmithMatches` | app.js:10 | Jane Smith fails a name test spelt "john" in any case, and passes an e-mail test spelt "example.com" in any case |
| `Scenarios.AliceJohnsonMatches` | app.js:11 | Alice Johnson passes a name test spelt "john" in any case, and an e-mail test spelt "example.com" in any case |
| `Scenarios.BobBrownMatches` | app.js:12 | Bob Brown fails a name test spelt "john" in any case, and passes an e-mail test spelt "example.com" in any case |
| `Scenarios.CharlieWhiteMatches` | app.js:13 | Charlie White fails a name test spelt "john" in any case, and passes an e-mail test spelt "example.com" in any case |
| `Scenarios.DavidBlackMatches` | app.js:14 | David Black fails a name test spelt "john" in any case, and passes an e-mail test spelt "example.com" in any case |
| `Scenarios.SeedNamesMatchingJohn` | app.js:9-14 | among the seed names, exactly John Doe and Alice Johnson contain "john", ignoring case |
| `Scenarios.SeedFilterByName` | tests/app.spec.js:42-47 | filtering the seed list by a name query spelt "john" in any case returns John Doe and then Alice Johnson |
| `Scenarios.SeedEmailsMatchingExample` | app.js:9-14 | every seed e-mail address contains "example.com", ignoring case |
| `Scenarios.SeedFilterByEmail` | tests/app.spec.js:50-55 | filtering the seed list by an e-mail query spelt "example.com" in any case returns all six records in order |
| `Scenarios.ReplayTestSuite` | tests/app.spec.js:19-104 | on a fresh registry the route tests' requests give: a non-empty list that starts with id 1, John Doe for id 1, `NotFound` for 999, a created record with id 7, the updated record 1, `NotFound` for updating 999, a successful delete of 1 and `NotFound` for deleting 999 |
| `Scenarios.RunTestSuite` | tests/app.spec.js:19-104 | the same requests give the same answers on any registry that holds six records, John Doe first, with no id as large as 999 |
| `Scenarios.ReplayIndexFacts` | app.js:45-75 | on such a list, id 1 is found first and 999 is not found, also after a push, after replacing the first record by one with id 1, and (for 999) after splicing that record out |
| `Scenarios.FirstHasId` | app.js:45-46 | `find` and `findIndex` stop at the first record when it has the id |
| `Scenarios.IdsBelow` | app.js:45-46 | an id larger than every stored id is not found |
| `Scenarios.SeedWithoutFirst` | app.js:8-15 | without its first record the seed list has five records and no id 1, and id 6 still leads to David Black after any push |
| `Scenarios.DeleteThenCreate` | app.js:51-77 | on a fresh registry, deleting user 1 succeeds, after which user 1 is not found and five records remain; a new record then gets id 6, and GET of id 6 still returns David Black |
| `Registry.UserRegistry.constructor` | app.js:8-15 | the registry starts with the six seed records, and its invariant holds |
| `Registry.UserRegistry.ListAll` | app.js:39-41 | GET `/users` returns the stored records themselves, unfiltered and in insertion order |
| `Registry.UserRegistry.FilterUsers` | app.js:23-36 | GET `/users/filter` with no truthy parameter equals GET `/users`; otherwise, on success, it returns an order-preserving selection of the stored records, each passing every switched-on test; it reads the registry and does not change it |
| `Registry.UserRegistry.GetById` | app.js:44-48 | GET `/users/:id` returns the first stored record with the id, or `NotFound` exactly when no stored record has it; a non-numeric id, and (while every id is positive) an id of zero or less, is always `NotFound` |
| `Registry.UserRegistry.Create` | app.js:51-56 | POST `/users` appends exactly one record at the end, with id equal to the old length plus one and the given name and e-mail; earlier records are unchanged; the invariant is kept |
| `Registry.UserRegistry.Update` | app.js:59-68 | PUT `/users/:id` on a missing id yields `NotFound` and changes nothing; otherwise only the first record with the id changes: each truthy supplied field replaces the stored one and every other field is kept; its id, its position and all other records are unchanged |
| `Registry.UserRegistry.Delete` | app.js:71-77 | DELETE `/users/:id` on a missing id yields `NotFound` and changes nothing; otherwise it removes exactly the first record with the id |

## Left out

- Express routing and path matching are not modelled. Neither are JSON body
  parsing, HTTP status codes and JSON serialisation, the root welcome route
  and the catch-all 404 (app.js:1-5, 18-20, 80-84). They are framework
  plumbing and constant responses. `NotFound` stands for the 404 with
  "User not found".
- `parseInt` string parsing is not modelled (for example `"1abc"` gives 1).
  The route id is taken already parsed, with `None` for `NaN`.
- `toLowerCase` is modelled over ASCII letters only. Full Unicode case
  mapping is not modelled.
- JavaScript truthiness of non-string values is not modelled. This covers
  numbers, `false`, and arrays from repeated query parameters. A value is
  truthy when it is present and a non-empty string.
- The TypeError of the filter is modelled as an error result. Express would
  turn it into a 500 response; that is not modelled.
- In JavaScript, update assigns the fields of the found record object in
  place. The model instead replaces that element of the sequence. No
  reference to a record outlives a request, so no aliasing is lost.
- `Registry.UserRegistry.FilterUsers`: its contract states the selection
  through membership and order only. The exact multiplicities and the error
  condition are stated by `Users.FilterSpec`, which it is defined by.
- The process-wide sharing of `users` between concurrent requests is not
  modelled. Node.js runs each handler to completion, so every operation here
  is one atomic step.
