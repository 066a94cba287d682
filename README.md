# WorldWise city store, modelled in Dafny

WorldWise is a single-page travel log. Its city store (`src/contexts/CitiesContext.jsx`) keeps the
list of visited cities, the currently selected city, a loading flag and the last error message. All
changes go through one reducer driven by six tagged actions. Four operations (the initial list
fetch, `getCity`, `createCity`, `deleteCity`) each dispatch `loading`, make a request to the REST
backend, and then dispatch exactly one terminal action. That action is the success action or
`rejected` with a fixed message. The one exception is `getCity` for the id of the current city:
it returns at once and dispatches nothing.

The project has two modules:

- `CitiesReducer` (`cities_reducer.dfy`) holds the pure part. It has the `City`, `State` and
  `Action` datatypes and the initial state `Initial`. It has the reducer `Reduce` and the
  filter-by-id `RemoveCity`. `Run` folds the reducer over a sequence of dispatches, which is what
  `useReducer` does. The functions `FetchCitiesDispatches`, `GetCityDispatches`,
  `CreateCityDispatches` and `DeleteCityDispatches` give the actions each operation dispatches for a
  given request outcome. The lemmas state the properties of all of these.
- `CitiesStore` (`cities_store.dfy`) holds the imperative part: a class `Store` with a mutable
  `state` field and a ghost `log` of dispatched actions. Its invariant `Consistent()` says that
  `state` is `Run(Initial, log)`. `Valid()` adds that the store is settled (`isLoading` is false).
  Apart from the constructor, which sets the initial state, `Dispatch` is the only method that
  assigns `state`. The constructor mounts the provider and runs the initial list fetch once.
  `FetchCities`, `GetCity`, `CreateCity` and `DeleteCity` are the four operations.

How the model represents the source:

- The empty object `{}` used for "no current city" is `None` in an `Option<City>`.
- A network request is an `Outcome<T>` parameter: `Resolved(payload)` or `Failed`. The fetch that
  came back, the JSON parsing and the endpoint URLs are not modelled.
- City ids are plain integers.

What the code does and does not guarantee:

- The reducer never clears `error`: only `rejected` writes it, so a later success leaves an old
  message in place. `RunError` proves that the error is always the message of the last `rejected`.
- The reducer does not enforce unique ids in `cities`. `ReducePreservesUniqueIds` shows that ids
  stay unique only while loaded lists and created cities bring no repeated id, and
  `CityCreatedDuplicate` shows that a repeated id breaks it.
- The filter at line 51 removes every entry with the id. On a list with unique ids that means at
  most one entry (`RemoveCityUnique`).
- `city/deleted` clears `currentCity` whichever city was deleted, not only when the deleted city was
  the selected one.

## Model

| member | source | states |
|---|---|---|
| `CitiesReducer.Reduce` | src/contexts/CitiesContext.jsx:20-61 | isLoading is true exactly after `loading`. Only `rejected` changes `error`. `city/loaded` and `city/created` select their payload, `city/deleted` clears the selection, and other actions keep it. `loading`, `city/loaded` and `rejected` keep `cities`. `cities/loaded` replaces it with the payload. `city/created` makes it one longer, with the old list as its prefix and the payload last. `city/deleted` filters it by id |
| `CitiesReducer.RemoveCity` | src/contexts/CitiesContext.jsx:51 | the filtered list is never longer than the input, and each of its entries is in the input with an id different from the deleted one |
| `CitiesReducer.RemoveCityMembers` | src/contexts/CitiesContext.jsx:51 | a city is in the result if and only if it is in the input and its id differs from the deleted id |
| `CitiesReducer.RemoveCityAppend` | src/contexts/CitiesContext.jsx:51 | filtering distributes over concatenation, so the relative order of the kept entries is preserved |
| `CitiesReducer.RemoveCityUnchanged` | src/contexts/CitiesContext.jsx:51 | the list is returned unchanged if and only if no entry carries the id |
| `CitiesReducer.RemoveCityIdempotent` | src/contexts/CitiesContext.jsx:51 | filtering out the same id twice gives the same list as once |
| `CitiesReducer.RemoveCityUnique` | src/contexts/CitiesContext.jsx:51 | on a list with unique ids, the result has unique ids and is exactly one shorter when the id is present, and the same length otherwise |
| `CitiesReducer.CityDeletedFilters` | src/contexts/CitiesContext.jsx:47-53 | `city/deleted` keeps exactly the entries with another id, split at any point it is the filter of both halves, it never grows the list, it leaves the list unchanged exactly when the id is absent, and it clears `currentCity`, lowers `isLoading` and keeps `error` |
| `CitiesReducer.ReduceIdempotent` | src/contexts/CitiesContext.jsx:25-56 | every action except `city/created` (in particular `cities/loaded` with the same payload) gives the same state when applied twice as when applied once |
| `CitiesReducer.CityCreatedTwice` | src/contexts/CitiesContext.jsx:39-45 | applying `city/created` twice gives the old list followed by the payload twice, and the resulting state differs from applying it once, so it is not idempotent |
| `CitiesReducer.LoadingThenTerminal` | src/contexts/CitiesContext.jsx:22-56 | `loading` followed by any terminal action gives the same state as the terminal action alone, and that state is not loading |
| `CitiesReducer.ReducePreservesUniqueIds` | src/contexts/CitiesContext.jsx:20-61 | unique ids in `cities` are preserved by every action, provided a loaded list has unique ids and a created city's id is not already listed |
| `CitiesReducer.CityCreatedDuplicate` | src/contexts/CitiesContext.jsx:39-45 | creating a city whose id is already listed yields a list with a repeated id, because the reducer does not check |
| `CitiesReducer.RunAppend` | src/contexts/CitiesContext.jsx:64-67 | dispatching one more action applies the reducer once to the state reached so far |
| `CitiesReducer.RunLoadingFlag` | src/contexts/CitiesContext.jsx:20-61 | after any non-empty sequence of dispatches, `isLoading` is true exactly when the last action was `loading` |
| `CitiesReducer.RunError` | src/contexts/CitiesContext.jsx:55-56 | after any sequence of dispatches, `error` is the message of the last `rejected`, or the starting error when there was none |
| `CitiesReducer.OperationSettles` | src/contexts/CitiesContext.jsx:75-91 | dispatching `loading` and then one terminal action ends with `isLoading` false, in the same state the terminal action alone gives |
| `CitiesReducer.FetchCitiesDispatches` | src/contexts/CitiesContext.jsx:74-96 | the list fetch dispatches `loading` and then one terminal action: `cities/loaded` with the fetched list if and only if the request resolved, otherwise `rejected` with "There was an error loading data..." |
| `CitiesReducer.GetCityDispatches` | src/contexts/CitiesContext.jsx:100-126 | nothing is dispatched if and only if the current city exists and has the requested id. With no current city it never short-circuits. Otherwise it dispatches `loading` and then `city/loaded` with the response when the request resolved, or `rejected` with "There was an error loading city..." |
| `CitiesReducer.CreateCityDispatches` | src/contexts/CitiesContext.jsx:128-155 | `loading` and then `city/created` with the server's record if and only if the request resolved, otherwise `rejected` with "There was an error creating the city..." |
| `CitiesReducer.DeleteCityDispatches` | src/contexts/CitiesContext.jsx:157-179 | `loading` and then `city/deleted` carrying the requested id (not a response body) if and only if the request resolved, otherwise `rejected` with "There was an error deleting the data..." |
| `CitiesReducer.ScenarioInitialLoad` | src/contexts/CitiesContext.jsx:13-30 | from the initial state `loading` raises only the flag, and `cities/loaded` with one city then gives that list, no selection, not loading and no error |
| `CitiesReducer.ScenarioCreate` | src/contexts/CitiesContext.jsx:39-45 | creating city 7 on the list `[1]` gives `[1, 7]` and selects city 7 |
| `CitiesReducer.ScenarioDelete` | src/contexts/CitiesContext.jsx:47-53 | deleting id 1 from `[1, 2]` with city 1 selected gives `[2]` and no selection |
| `CitiesStore.Store.constructor` | src/contexts/CitiesContext.jsx:63-98 | the store starts from the initial state and runs the list fetch once. It ends settled with no selection. It holds the fetched list and no error, or the empty list and the loading error |
| `CitiesStore.Store.Dispatch` | src/contexts/CitiesContext.jsx:64-67 | the new state is the reducer applied to the old state and the action, and the action is appended to the dispatch log, which keeps the state equal to the fold of the log |
| `CitiesStore.Store.FetchCities` | src/contexts/CitiesContext.jsx:74-96 | dispatches exactly the list-fetch sequence and ends settled. On success `cities` is the fetched list and `error` is kept. On failure `cities` is kept and `error` is the loading message. `currentCity` is kept either way |
| `CitiesStore.Store.GetCity` | src/contexts/CitiesContext.jsx:100-126 | when the requested id is the current city's, nothing is dispatched and the state is unchanged. Otherwise it dispatches the fetch-by-id sequence and ends settled with `cities` kept, the response selected and `error` kept on success, or the selection kept and the city-loading message on failure. A settled store stays settled |
| `CitiesStore.Store.CreateCity` | src/contexts/CitiesContext.jsx:128-155 | ends settled. On success the server's record is appended to `cities` and selected, and `error` is kept. On failure `cities` and the selection are kept and `error` is the creation message |
| `CitiesStore.Store.DeleteCity` | src/contexts/CitiesContext.jsx:157-179 | ends settled. On success `cities` keeps exactly the entries with another id, is unchanged if the id was absent, the selection is cleared and `error` is kept. On failure `cities` and the selection are kept and `error` is the deletion message |

## Left out

- Network I/O: `fetch`, JSON parsing, the `BASE_URL` endpoints and request headers. Each request is an `Outcome` parameter whose `Resolved` payload is assumed to be a well-formed City, or a list of well-formed Cities.
- A resolved response whose body is not a well-formed City: the source still dispatches its success action with that body (lines 84, 113, 144). For example an object without an `id` loaded by `getCity` becomes a current city that the check at line 102 treats like no selection. `Outcome<City>` cannot express this.
- `createCity`'s argument `newCity`: it is only sent as the request body, so `CreateCity` takes only the response.
- React plumbing: `createContext`, the `useEffect` run-once guarantee (modelled by running the fetch in the constructor), `useCallback` memoization of `getCity`, the provider render and the `useCities` outside-provider guard.
- Concurrency: overlapping operations whose dispatches interleave, and the last-write-wins race on `isLoading` and `error`. Each operation is modelled as one atomic step.
- JavaScript `Number()` coercion of string ids and the type sensitivity of `!==` in the filter and in the `getCity` guard: ids are integers.
- The `"Unknown action"` default branch of the reducer: the action datatype is closed, so no unknown tag can be constructed.
- City coordinates are `real`; floating-point behaviour is not modelled.
- `src/components/PageNav.jsx`: static navigation markup with no state or logic.
