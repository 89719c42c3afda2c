# In-memory todo store, modelled in Dafny

This project models the core of a small Go todo service. The core is the
in-memory repository `MemoryStore` (`internal/store/memory_store.go`) and the
record transformations it relies on (`internal/models/todo.go`).

The store holds a map from integer id to todo record and a `nextID` counter.
It supports these operations:

- create: takes the next id and increments the counter;
- get, update and delete by id: each fails with "not found" when the id is absent;
- list everything, newest first;
- search with three filters, highest priority first;
- aggregate statistics.

A new store is seeded with three sample records and `nextID = 4`.

The project has three modules:

- `Models` (`models.dfy`): the records (`Todo`, `TodoRequest`, `TodoResponse`, `Status`).
  - `FromRequest` replaces the mutable fields of a record.
  - `ToResponse` adds the derived `isOverdue` flag and the three-valued status.
- `Sorting` (`sorting.dfy`): the two comparators the store hands to Go's
  `sort.Slice`, and `Sort`. `Sort` is an insertion sort that meets the same
  contract: it returns a sorted permutation of its input.
- `Store` (`memory_store.dfy`): the `MemoryStore` class.
  - Its fields are `todos: map<int, Todo>`, `nextID: int`, a ghost set
    `issued` of every id ever handed out, and a ghost instant `clock`, the
    latest instant at which the store stamped a record. The invariant
    `Valid()` says:
    - each record sits under its own id;
    - every issued id lies in `[1, nextID)`;
    - every stored id was issued;
    - every record has `createdAt <= updatedAt <= clock`.
  - The mutating methods (`Seed`, `CreateTodo`, `UpdateTodo`, `DeleteTodo`)
    state the whole new state in terms of the old one.
  - The queries (`GetAllTodos`, `SearchTodos`, `GetStats`) are loops over
    the map's keys. Each is proved against a reference definition:
    - a permutation of the stored values;
    - the `Selected` search predicate;
    - the `Tallies` counting predicate.

Time is an integer clock in seconds, always passed in as `now`. Every
timestamp the store writes comes from `time.Now()`, whose monotonic reading is
what Go compares. The operations that stamp records (`Seed`, `CreateTodo`,
`UpdateTodo`) therefore take a `now` no earlier than the store's `clock`. A
missing due date is `None`. Go's `nil` completion filter is `None`. Each store
operation is one atomic step.

The model follows the code in two places where one might expect otherwise:

- The store does not check that a title is non-empty. That check is made
  by the HTTP handlers (`internal/api/handlers.go:281`, `:310`).
- A new store's counter is 4, not 1, because of the seed records.

`Seed` stores the sample records under ids 1 to 3 and sets the counter to 4
unconditionally. The store invariant holds afterwards only if the counter was
at most 4 beforehand. On a fresh store it is 1, which is the only way the
code ever calls `Seed`. `Seed`'s contract says exactly this.

## Model

| member | source | states |
|---|---|---|
| Models.FromRequest | internal/models/todo.go:73-81 | the six request fields are copied verbatim (`RequestOf(r) == req`, a whole replacement); `id` and `createdAt` are kept; `updatedAt` becomes `now` |
| Models.FromRequestIsReplacement | internal/models/todo.go:73-79 | the result does not depend on the old title, description, flags, priority, category or due date: two records with the same id and creation time give the same result |
| Models.FromOwnRequest | internal/models/todo.go:73-81 | applying a record's own fields as a request changes only `updatedAt` |
| Models.ToResponse | internal/models/todo.go:46-70 | all nine stored fields are copied unchanged; `isOverdue` iff not completed, a due date is set and it lies before `now`; status is Completed iff completed, Overdue iff overdue, InProgress otherwise |
| Models.CompletedNeverOverdue | internal/models/todo.go:48-52 | a completed record is never overdue, and its status is Completed |
| Models.OverdueIsMonotone | internal/models/todo.go:48-55 | a record overdue at `now` still has status Overdue at any later instant |
| Models.StatusLabel | internal/models/todo.go:50-55 | each status is sent as its own three-character label; together with `StatusLabelInjective`, the label determines the status |
| Models.IsOverdue | internal/models/todo.go:48 | overdue only when not completed and a due date is set; for such a record, overdue exactly when `now` is past the due date |
| Models.StatusLabelInjective | internal/models/todo.go:50-55 | the three status labels are pairwise different, so the sent status determines the state |
| Sorting.Less | internal/store/memory_store.go:181-186 | never relates a record to itself; in the search order a higher priority always comes first and a lower one never does; in the listing order (the closure at lines 66-68), and between equal priorities, the later creation time comes first |
| Sorting.LessIsStrictWeakOrder | internal/store/memory_store.go:181-186 | both "less" functions (newest first; priority descending, then newest first) are irreflexive and transitive, and incomparability is transitive |
| Sorting.Sort | internal/store/memory_store.go:66-68 | the result is a permutation of the input (same multiset) and no element is "less" than one placed before it |
| Sorting.PermutationKeepsDistinct | internal/store/memory_store.go:181-186 | sorting a sequence without repeated records gives one without repeated records |
| Store.SeedTodos | internal/store/memory_store.go:241-277 | the sample data has keys exactly {1, 2, 3}; each record has its key as id and `createdAt <= updatedAt <= now`; record 2 is completed, records 1 and 3 are pending and not overdue |
| Store.Contains | internal/store/memory_store.go:161 | true iff `sub` occurs as a contiguous run of `s` (case-sensitive) |
| Store.Increment | internal/store/memory_store.go:225 | adds one to the count at a key, treating a missing key as 0; no other entry changes; the sum of the counts grows by one |
| Store.Count | internal/store/memory_store.go:211-230 | one loop step counts the record as completed, pending or overdue exactly as its response at `now` reports it; the priority histogram gains the record's priority and its counts grow by one; the category counts grow by one only for a non-empty category; `CountStep` proves the step keeps the tallies exact |
| Store.CountStep | internal/store/memory_store.go:210-231 | counting the record under one more key extends the tallies of the keys seen so far to that key |
| Store.CountersStep | internal/store/memory_store.go:211-222 | the completed, pending and overdue counters each grow by one exactly when the new record is of that kind |
| Store.PrioritiesStep | internal/store/memory_store.go:225 | after the increment, the priority histogram has one entry per priority seen, holding its number of records, and the counts sum to the number of records seen |
| Store.CategoriesStep | internal/store/memory_store.go:228-230 | the category histogram gains only non-empty categories, holds the number of records in each, and its counts sum to the number of records with a category |
| Store.NothingTallied | internal/store/memory_store.go:197-204 | the initial zero counters and empty histograms are the tallies of no record |
| Store.OverdueCountMatchesResponses | internal/store/memory_store.go:219 | for the tallies of a whole store, the overdue count equals the number of records whose response at the same instant has status Overdue |
| Store.EmptyStoreStats | internal/store/memory_store.go:197-204 | the statistics of an empty store are all zero with empty histograms |
| Store.MemoryStore.constructor | internal/store/memory_store.go:41-51 | a new store satisfies the invariant, holds exactly the three sample records under keys 1 to 3, has `nextID == 4`, and its clock is the creation instant |
| Store.MemoryStore.Seed | internal/store/memory_store.go:237-281 | the sample records overwrite keys 1 to 3, other entries are kept, and `nextID` becomes 4; the clock becomes `now`; the invariant survives when the counter was at most 4 |
| Store.MemoryStore.GetAllTodos | internal/store/memory_store.go:54-71 | the result has one entry per stored record, with no repeats, holds exactly the stored records, and is sorted newest first |
| Store.MemoryStore.Collect | internal/store/memory_store.go:60-63 | the loop gathers every stored record exactly once |
| Store.MemoryStore.GetTodoByID | internal/store/memory_store.go:74-85 | succeeds iff the id is a key, returning the record stored there (whose id is that key); otherwise returns `TodoNotFound` |
| Store.MemoryStore.CreateTodo | internal/store/memory_store.go:88-113 | the new record's id is the old counter and was never issued before; all six request fields are copied; `createdAt == updatedAt == now`; the map gains exactly that key; the counter grows by one; the clock becomes `now`; never fails |
| Store.MemoryStore.UpdateTodo | internal/store/memory_store.go:116-129 | fails with `TodoNotFound` and changes nothing iff the id is absent; otherwise the stored record becomes `FromRequest` of the old one and nothing else changes; the update time never moves backwards and never precedes the creation time |
| Store.MemoryStore.DeleteTodo | internal/store/memory_store.go:132-144 | fails with `TodoNotFound` iff the id is absent; the map loses exactly that key; the counter and the issued ids are unchanged |
| Store.MemoryStore.SearchTodos | internal/store/memory_store.go:147-189 | a record is in the result iff it is stored and matches all three filters (query in title or description, exact category, completion flag; an empty or absent filter does not restrict); no repeats; highest priority first, newest first among equal priorities |
| Store.MemoryStore.GetStats | internal/store/memory_store.go:192-234 | total is the number of records; completed, pending and overdue count their records; `completed + pending == total`; `overdue <= pending`; the priority histogram sums to total; no empty-string category; the category histogram sums to the number of records with a category |
| Store.CompleteTodo | internal/api/handlers.go:342-372 | a get followed by an update that resends every field with completed set: fails with `TodoNotFound` and changes nothing iff the id is absent; otherwise only that record's completed flag (now true) and `updatedAt` change |
| Store.DeleteTwice | internal/store/memory_store.go:137-143 | a second delete of the same id fails with `TodoNotFound`, whatever the first did |
| Store.FreshIds | internal/store/memory_store.go:97-110 | on a new store the first create returns id 4; after that record is deleted, the next create returns id 5, so the deleted id is not reused |

## Left out

- Locking: the `sync.RWMutex` is not modelled. Each operation is one atomic
  step on the store's state.
- Clock: `time.Now()` becomes the parameter `now`, in seconds. The
  monotonic clock behind it becomes the precondition that `now` is no earlier
  than the store's `clock`. Go's zero-time due date becomes `None`.
- Aliasing: the Go store keeps `*Todo` pointers. `GetAllTodos`,
  `SearchTodos`, `GetTodoByID`, `CreateTodo` and `UpdateTodo` all return the
  stored pointers, and `UpdateTodo` mutates the stored record in place
  through one. The model stores records as values and returns copies. It
  therefore does not capture that an update is visible through a result
  returned earlier, nor the race between that update and a caller reading
  such a result after the lock is released.
- Iteration order: Go's map iteration order is random. The loops pick an
  arbitrary remaining key on each step, and the contracts do not depend on
  the order.
- The sort algorithm: `sort.Slice` and its in-place update of the slice are
  not modelled. `Sorting.Sort` is a different algorithm that returns a new
  sequence. Only "permutation and sorted" is promised. The order of records
  with equal sort keys is unspecified, as it is in Go.
- Error results: `GetAllTodos`, `CreateTodo`, `SearchTodos` and `GetStats`
  return a Go `error` that is always `nil`. The model drops it.
  `ErrInvalidID` is declared but never returned by the store.
- `GetStats` result type: the result's `map[string]interface{}` is modelled as
  the typed record `Stats`.
- Strings are sequences of Unicode characters. Go's `strings.Contains`
  compares bytes, which gives the same answer for valid UTF-8 text.
- Store.MemoryStore.CreateTodo: does not model the 64-bit wrap-around of
  `nextID`. An overflow would need 2^63 creations.
- Request validation: the `binding` tags on `TodoRequest` are not enforced
  anywhere in the core. The model assumes no priority range and no length
  limits.
- Not part of this model:
  - the HTTP handlers, routing, JSON and HTML rendering (`internal/api/handlers.go`),
    except `CompleteTodo`, which is stated over the store's operations;
  - configuration loading (`internal/config/config.go`);
  - process start-up and shutdown (`cmd/xstream/main.go`);
  - logging (`pkg/utils/logger.go`);
  - the unused `User` record.
