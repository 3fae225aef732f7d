# Record filters, contact helpers and to-do ids, modelled in Dafny

The repository is a set of small TypeScript teaching scripts. Their runtime
behaviour fits in a few functions, and this project models those:

- the generic `query<T>` filter (`src/ch03/challenge/app.ts`) and its twin
  `searchContacts` (`src/ch03/demo.ts`). Each keeps an item, in input order,
  when at least one of the item's own properties has a query entry whose
  predicate accepts that property's value. Fields are combined with OR, not AND.
- `getValue` / `getValueRestricted`, `toContact` and `handleEvent` from
  `src/ch03/demo.ts`;
- `getNextId` and `addTodoItem` from `src/ch02/challenge/app.ts`, over the
  module-level `todoItems` list.

Files and modules:

- `js_values.dfy` (`JsValues`): property values and objects. An object is a
  finite map from each own property name to its value.
- `array_filter.dfy` (`ArrayFilter`): `Array.prototype.filter` for a total
  callback. It also gives the positions the filter keeps and proves that the
  result is the input restricted to exactly those positions.
- `generic_query.dfy` (`GenericQuery`): `query<T>`, the per-item loop over
  `Object.keys`, and the sample call.
- `contacts.dfy` (`Contacts`): the `Contact` interface that `searchContacts`
  filters. It is declared in `src/ch02/demo.ts`, and only its data is modelled.
  Because TypeScript typing is structural, a value passed as a `Contact` may
  carry further own properties (an `AddressableContact` of `src/ch03/demo.ts`
  has `line1`, `province` and the rest of `Address2`); a contact's `extra`
  field holds those.
- `contact_demo.dfy` (`ContactDemo`): `getValue`, `toContact`, `handleEvent`
  and `searchContacts`.
- `todo_app.dfy` (`TodoApp`): `getNextId` as a left fold (`reduce`), and a
  `TodoList` class whose `items` field is the `todoItems` array.
  `AddTodoItem` appends to that field in place.

The TypeScript loop in both filters runs `for (const property of Object.keys(item))`
and returns early. The model writes it as `SearchKeys`, which accepts the keys
in any order. `KeyOrderIrrelevant` proves that for every ordering of the own
keys, this search agrees with the order-free test `Matches` ("some own key
matches"). The filters use `Matches`.

`searchContacts` is modelled by turning each `{ sort?, matches }` query object
into its `matches` predicate and then applying the same per-item test. Its
`Contact` objects carry an optional member in one of three ways: the property
is absent, it is an own property holding a value, or it is an own property
holding undefined. A query entry for an absent member is never consulted
(`AbsentPropertyNeverConsulted`). A member that holds undefined is still
tested (`UndefinedStateMatched`), and so is a property outside the interface
(`ExtraPropertyMatched`, `AddressableContactMatchedOnProvince`).

`QueryIsTheLoop` and `SearchContactsIsTheLoop` tie each filter as written
(`filter` over the key loop) to its order-free model, for any enumeration order
of the own keys.

`getNextId` is a pure function of its argument, so it cannot modify `items`.

## Model

| member | source | states |
|---|---|---|
| `ArrayFilter.Filter` | src/ch03/challenge/app.ts:5 | the result is no longer than the input; every result element is an input element the callback accepts; every accepted input element is in the result |
| `ArrayFilter.KeptPositions` | src/ch03/challenge/app.ts:5 | the positions from `start` whose element is accepted: strictly increasing, in range, each accepted position present |
| `ArrayFilter.FilterSelectsKeptPositions` | src/ch03/challenge/app.ts:5 | the filter result is the input read at exactly the accepted positions, in increasing order (an order-preserving subsequence, each position at most once) |
| `ArrayFilter.FilterCongruent` | src/ch03/challenge/app.ts:5 | two callbacks that agree on every input element give the same result |
| `ArrayFilter.FilterNoneKept` | src/ch03/challenge/app.ts:5 | a callback that accepts no element gives the empty result |
| `GenericQuery.SearchKeys` | src/ch03/challenge/app.ts:7-18 | the loop with early return yields true iff some enumerated key has a query entry whose predicate accepts the item's value for it |
| `GenericQuery.KeyOrderIrrelevant` | src/ch03/challenge/app.ts:7-15 | for every enumeration of exactly the item's own keys, the loop's answer equals "some own key matches" |
| `GenericQuery.Query` | src/ch03/challenge/app.ts:4-20 | at most as many items as the input; a kept item is an input item with some own key whose query predicate accepts its value; every such input item is kept |
| `GenericQuery.QueryIsTheLoop` | src/ch03/challenge/app.ts:4-20 | filtering with the key loop, for any enumeration of exactly each item's own keys, gives the same result as `Query` |
| `GenericQuery.QueryKeepsMatchesInOrder` | src/ch03/challenge/app.ts:5-19 | the result is the input at exactly the matching positions, which are strictly increasing: order preserved and each input element at most once |
| `GenericQuery.OneMatchingFieldSuffices` | src/ch03/challenge/app.ts:12-13 | OR semantics: one own field accepted by its predicate puts the item in the result, whatever the other predicates say |
| `GenericQuery.UnqueriedItemExcluded` | src/ch03/challenge/app.ts:9-18 | an item with no own key in the query is not in the result |
| `GenericQuery.EmptyQueryKeepsNothing` | src/ch03/challenge/app.ts:9-18 | a query with no entries gives the empty result |
| `GenericQuery.SampleMatchesAngieOnly` | src/ch03/challenge/app.ts:22-31 | the sample call on Ted (12) and Angie (31) gives exactly `[Angie]`, once, although both of her fields match |
| `GenericQuery.SampleNobodyMatches` | src/ch03/challenge/app.ts:22-31 | the same two items with a name predicate that neither satisfies give `[]` |
| `Contacts.StatusText` | src/ch02/demo.ts:6-10 | `Active` is `"active"`, `Inactive` is `"inactive"`, `New` is `"new"`, each in both directions (so distinct members give distinct strings) |
| `Contacts.OwnProperties` | src/ch02/demo.ts:12-25 | a contact's own keys are the five required members, exactly those optional members it has as own properties, and every further own property outside the interface's names; each holds the contact's value, or undefined for an own optional member holding undefined |
| `ContactDemo.GetValue` | src/ch03/demo.ts:44-50 | the value of the named own property, or undefined when the object lacks it |
| `ContactDemo.GetValueOfContact` | src/ch03/demo.ts:44-46 | reading any of the nine members by name returns that member's data, and undefined for an optional member that is absent or holds undefined; any other name reads the contact's further own property of that name, or undefined |
| `ContactDemo.SampleGetValues` | src/ch03/demo.ts:52-54 | `getValue(primaryContact, "status")` is `"active"` and `getValue({min: 2, max: 10}, "max")` is 10 |
| `ContactDemo.ToContact` | src/ch03/demo.ts:57-71 | a string becomes `{id: 0, name: s, status: "active"}`; a contact becomes a new object with its id and name and its status, where a missing or undefined status becomes an own `status` holding undefined; the result's own keys are always exactly `id`, `name` and `status` |
| `ContactDemo.ToContactIdempotent` | src/ch03/demo.ts:57-71 | normalising the result again changes nothing |
| `ContactDemo.ToContactFixedPoints` | src/ch03/demo.ts:58-63 | a contact is returned unchanged iff it has no `birthDate` property (not even one holding undefined), has `status` as an own property, and has no further own properties |
| `ContactDemo.MissingStatusBecomesOwnUndefined` | src/ch03/demo.ts:58-63 | `toContact({id: 1, name: "a"})` is `{id: 1, name: "a", status: undefined}`, which differs from its argument |
| `ContactDemo.HandleEvent` | src/ch03/demo.ts:94-101 | the handler is called at most once, and exactly once iff the name is `"statusChanged"`; the payload is `{contactId: 1, oldStatus: "active", newStatus: "inactive"}` and has the payload type of the event name |
| `ContactDemo.SearchContacts` | src/ch03/demo.ts:142-155 | at most as many contacts as the input; a kept contact is an input contact with an own property whose query entry's `matches` accepts its value (`PassesQuery`); every such contact is kept |
| `ContactDemo.SearchContactsIsTheLoop` | src/ch03/demo.ts:142-155 | filtering contacts with the key loop over the `matches` predicates, for any enumeration of exactly the own keys, gives the same result as `SearchContacts` |
| `ContactDemo.SearchContactsKeepsMatchesInOrder` | src/ch03/demo.ts:142-155 | the result is the input at exactly the matching positions, strictly increasing |
| `ContactDemo.AbsentPropertyNeverConsulted` | src/ch03/demo.ts:144-150 | a query entry for a property no contact has can be removed without changing the result |
| `ContactDemo.MissingStateNotMatched` | src/ch03/demo.ts:144-150 | a contact without `state` is not kept by a query on `state` alone, even one whose predicate accepts everything |
| `ContactDemo.ExtraPropertyMatched` | src/ch03/demo.ts:142-155 | a contact is kept by a one-entry query on a property outside the interface whenever that entry's `matches` accepts the property's value |
| `ContactDemo.AddressableContactMatchedOnProvince` | src/ch03/demo.ts:20 | an `AddressableContact` with `province: "ON"` is kept, once, by a query whose `id` entry rejects everything and whose `province` entry accepts `"ON"` |
| `ContactDemo.UndefinedStateMatched` | src/ch03/demo.ts:144-150 | a contact whose `state` is an own property holding undefined is kept by a `state` query whose `matches` accepts undefined |
| `ContactDemo.EmptyContactQueryKeepsNothing` | src/ch03/demo.ts:146-153 | a query with no entries gives the empty result |
| `ContactDemo.SortHintIgnored` | src/ch03/demo.ts:142-155 | queries with the same keys and the same `matches` predicates give the same result, whatever their `sort` hints (predicates of the value alone; see "## Left out" for a `matches` that reads `this.sort`) |
| `TodoApp.MaxIdFrom` | src/ch02/challenge/app.ts:41 | the fold's result is at least the accumulator and every id; it is the accumulator or some item's id |
| `TodoApp.NextId` | src/ch02/challenge/app.ts:40-42 | the result is at least 1 and above every id; it is 1 or one more than some id, so it is exactly max(0, ids) + 1 |
| `TodoApp.NextIdOfEmpty` | src/ch02/challenge/app.ts:41 | `getNextId([])` is 1 |
| `TodoApp.AppendNextIdKeepsIdsDistinct` | src/ch02/challenge/app.ts:25-37 | appending an item with the next id to a list of distinct ids keeps them distinct |
| `TodoApp.InitialNextIdIsFour` | src/ch02/challenge/app.ts:14-23 | the initial list has distinct ids and its next id is 4 |
| `TodoApp.TodoList.constructor` | src/ch02/challenge/app.ts:14-23 | the list starts as the three initial items |
| `TodoApp.TodoList.AddTodoItem` | src/ch02/challenge/app.ts:25-37 | the list becomes the old list plus one item at the end, and that item is returned; it has the next id, the given title and status `Todo`; its id differs from every earlier id; distinct ids stay distinct |
| `TodoApp.AddFirstTodo` | src/ch02/challenge/app.ts:44-46 | the sample call on the initial list returns the new item with id 4 |

## Left out

- Numbers are modelled as unbounded integers. JavaScript numbers are doubles, so the model has no fractions, no precision loss and no `NaN` ids.
- `TodoApp.TodoList.AddTodoItem`: the promise that the new id differs from every earlier id rests on unbounded integers. In the source, an existing id of 2^53 makes `getNextId` return 2^53 again, because 2^53 + 1 rounds to 2^53 as a double. `TodoApp.NextId` and `TodoApp.AppendNextIdKeepsIdsDistinct` rest on the same assumption.
- `GenericQuery.Query`: the query is read only through its own enumerable entries. In the source, `query[property]` also finds members inherited from `Object.prototype`. An item with an own key such as `constructor` or `toString` therefore consults that inherited function as a plain call with `this` undefined. For `constructor`, `Object(value)` is an object for every value, so the source keeps the item; `toString` returns a non-empty string and keeps it too. Most other inherited members, such as `valueOf`, `hasOwnProperty` and `propertyIsEnumerable`, throw a `TypeError` on that call. So the source can keep an item the model drops, or throw where the model returns. Keys naming `Object.prototype` members are not modelled. This also applies to `GenericQuery.UnqueriedItemExcluded` and `GenericQuery.EmptyQueryKeepsNothing`.
- `ContactDemo.SearchContacts`: a contact query is likewise read only through its own entries. In the source, a contact key naming an `Object.prototype` member finds an inherited function with no `matches`, and the call throws a `TypeError`. That error path is not modelled. This also applies to `ContactDemo.EmptyContactQueryKeepsNothing`.
- `ContactDemo.GetValue`: reads see only the object's own enumerable properties. Inherited and non-enumerable properties, such as an array's `length` or `Object.prototype` members, read as undefined in the model.
- Predicates are total, side-effect-free functions on values. A predicate that throws, or that reads or changes state, is not modelled.
- `Date` values are opaque. `getBirthDate` is not part of this model, because it relies on the `Date` constructor and `Date.parse`.
- `console.log(JSON.stringify(newTodo))` in `src/ch02/challenge/app.ts` is output and is not modelled.
- `clone` and `cloneGeneric` in `src/ch02/demo.ts` are not modelled. They are thin calls into `Object.apply` / `Object.assign`. Only the `Contact` data shape and `primaryContact` are taken from that file.
- The dynamic `Record` object `x` in `src/ch03/demo.ts`, with its function-valued property and `console.log`, is not modelled.
- Type-level constructs are not modelled because they have no run-time behaviour: `keyof`, mapped types, indexed-access types, intersection types and the commented-out utility types. The `keyof` key restriction on a query is therefore not enforced: a query may carry any keys. `getValue`'s `keyof T` parameter is any field name.
- `query<T>` is modelled on objects whose values are property values (`JsValues.Value`): undefined, null, booleans, integers, strings, `Date` objects and functions. Nested objects and arrays, fractional and special numbers, `bigint` and symbols are not among them, so a record holding one of those cannot be written in the model. No proved property depends on the kinds of value, because every predicate is an arbitrary function on values. `T` is not a type parameter. Predicates receive a `Value` where TypeScript would pass the field's static type, and the sample predicate `age > 30` is written as "a number above 30".
- `ContactDemo.SortHintIgnored`: the `sort` hint of a query object is held in the data but never read by `searchContacts`, as in the source. `matches` is called as a method (`propertyQuery.matches(...)`), so in the source a `matches` that reads `this.sort` does see the hint; the model's `matches` is a function of the value alone, so that case is not modelled.
- `ContactDemo.HandleEvent`: the handler is not a parameter. The model returns the list of payloads the handler would be called with, because the handler's effects are invisible.
- `typeof nameOrContact === "object"` would also hold for `null`. The argument type excludes `null`, so the model has no such case.
- `getNextId` is generic over any `T` with a numeric `id`; the model fixes `T` to `TodoItem`, its only caller.
- `TodoApp.TodoList`: the module-level array becomes an object's `seq` field. Aliasing of the array and the exported item objects is not modelled.
