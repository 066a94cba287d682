/**
  The state machine behind the WorldWise city store: the store state, the
  closed set of tagged actions, the pure transition function `Reduce`, the
  fold `Run` that applies a sequence of dispatched actions, and the action
  sequences that the four store operations dispatch.
*/
module CitiesReducer {

  datatype Option<T> = None | Some(value: T)

  /** Identifiers are assigned by the backend; the model uses one integer type. */
  type CityId = int

  datatype Position = Position(lat: real, lng: real)

  datatype City = City(
    id: CityId,
    cityName: string,
    country: string,
    emoji: string,
    date: string,
    notes: string,
    position: Position)

  /** `currentCity` is `None` where the store holds the empty object `{}`. */
  datatype State = State(
    cities: seq<City>,
    currentCity: Option<City>,
    isLoading: bool,
    error: string)

  /** The six action tags; an unknown tag cannot be written down. */
  datatype Action =
    | Loading                          // "loading"
    | CitiesLoaded(cities: seq<City>)  // "cities/loaded"
    | CityLoaded(city: City)           // "city/loaded"
    | CityCreated(city: City)          // "city/created"
    | CityDeleted(id: CityId)          // "city/deleted"
    | Rejected(message: string)        // "rejected"

  /** Empty list, no current city, not loading, no error. */
  const Initial: State := State([], None, false, "")

  /** Every action except `loading` settles a request. */
  predicate IsTerminal(a: Action) {
    !a.Loading?
  }

  // ---------------------------------------------------------------------
  // Cities and their identifiers

  predicate HasId(cities: seq<City>, id: CityId) {
    exists c :: c in cities && c.id == id
  }

  /** No two entries of the list share an identifier. */
  predicate UniqueIds(cities: seq<City>) {
    forall i, j :: 0 <= i < j < |cities| ==> cities[i].id != cities[j].id
  }

  /** The entries whose id differs from `id`, in their original order. */
  function RemoveCity(cities: seq<City>, id: CityId): (r: seq<City>)
    ensures |r| <= |cities|
    ensures forall c :: c in r ==> c in cities && c.id != id
  {
    if cities == [] then []
    else if cities[0].id != id then [cities[0]] + RemoveCity(cities[1..], id)
    else RemoveCity(cities[1..], id)
  }

  /** Removal keeps exactly the entries with another id. */
  lemma {:induction false} RemoveCityMembers(cities: seq<City>, id: CityId)
    ensures forall c :: c in RemoveCity(cities, id) <==> c in cities && c.id != id
  {
    if cities != [] {
      RemoveCityMembers(cities[1..], id);
      assert forall c :: c in cities <==> c == cities[0] || c in cities[1..];
    }
  }

  /** Removal distributes over concatenation, so relative order is kept. */
  lemma {:induction false} RemoveCityAppend(a: seq<City>, b: seq<City>, id: CityId)
    ensures RemoveCity(a + b, id) == RemoveCity(a, id) + RemoveCity(b, id)
  {
    if a == [] {
      assert a + b == b;
    } else {
      assert (a + b)[0] == a[0];
      assert (a + b)[1..] == a[1..] + b;
      RemoveCityAppend(a[1..], b, id);
    }
  }

  /** The list is left unchanged exactly when no entry carries the id. */
  lemma {:induction false} RemoveCityUnchanged(cities: seq<City>, id: CityId)
    ensures RemoveCity(cities, id) == cities <==> !HasId(cities, id)
  {
    if cities == [] {
    } else if cities[0].id != id {
      RemoveCityUnchanged(cities[1..], id);
      assert HasId(cities, id) <==> HasId(cities[1..], id) by {
        assert forall c :: c in cities <==> c == cities[0] || c in cities[1..];
      }
    } else {
      assert HasId(cities, id) by { assert cities[0] in cities; }
      assert |RemoveCity(cities, id)| < |cities| by {
        assert |RemoveCity(cities[1..], id)| <= |cities[1..]|;
      }
    }
  }

  /** Removing the same id a second time changes nothing. */
  lemma RemoveCityIdempotent(cities: seq<City>, id: CityId)
    ensures RemoveCity(RemoveCity(cities, id), id) == RemoveCity(cities, id)
  {
    RemoveCityMembers(cities, id);
    RemoveCityUnchanged(RemoveCity(cities, id), id);
  }

  lemma UniqueIdsCons(c: City, rest: seq<City>)
    ensures UniqueIds([c] + rest) <==> !HasId(rest, c.id) && UniqueIds(rest)
  {
    var s := [c] + rest;
    assert forall k :: 0 <= k < |rest| ==> s[k + 1] == rest[k];
    if UniqueIds(s) {
      forall d | d in rest ensures d.id != c.id {
        var k :| 0 <= k < |rest| && rest[k] == d;
        assert s[0].id != s[k + 1].id;
      }
      forall i, j | 0 <= i < j < |rest| ensures rest[i].id != rest[j].id {
        assert s[i + 1].id != s[j + 1].id;
      }
    }
    if !HasId(rest, c.id) && UniqueIds(rest) {
      forall i, j | 0 <= i < j < |s| ensures s[i].id != s[j].id {
        if i == 0 {
          assert s[j] == rest[j - 1] && rest[j - 1] in rest;
        } else {
          assert s[i] == rest[i - 1] && s[j] == rest[j - 1];
        }
      }
    }
  }

  /** On a list with unique ids, removal drops one entry if the id is present and none otherwise. */
  lemma {:induction false} RemoveCityUnique(cities: seq<City>, id: CityId)
    requires UniqueIds(cities)
    ensures UniqueIds(RemoveCity(cities, id))
    ensures |RemoveCity(cities, id)| == if HasId(cities, id) then |cities| - 1 else |cities|
  {
    if cities != [] {
      var c, rest := cities[0], cities[1..];
      assert cities == [c] + rest;
      UniqueIdsCons(c, rest);
      RemoveCityUnique(rest, id);
      assert HasId(cities, id) <==> c.id == id || HasId(rest, id) by {
        assert forall d :: d in cities <==> d == c || d in rest;
      }
      if c.id == id {
        RemoveCityUnchanged(rest, id);
      } else {
        RemoveCityMembers(rest, id);
        UniqueIdsCons(c, RemoveCity(rest, id));
      }
    }
  }

  lemma UniqueIdsSnoc(cities: seq<City>, c: City)
    requires UniqueIds(cities) && !HasId(cities, c.id)
    ensures UniqueIds(cities + [c])
  {
    var s := cities + [c];
    forall i, j | 0 <= i < j < |s| ensures s[i].id != s[j].id {
      if j == |cities| {
        assert s[i] == cities[i] && cities[i] in cities;
      } else {
        assert s[i] == cities[i] && s[j] == cities[j];
      }
    }
  }

  // ---------------------------------------------------------------------
  // The reducer

  /** The transition function: every case copies the state and overwrites some fields. */
  function Reduce(s: State, a: Action): (r: State)
    // isLoading is raised by `loading` and lowered by every terminal action
    ensures r.isLoading <==> !IsTerminal(a)
    // only `rejected` writes the error; nothing clears it
    ensures r.error == if a.Rejected? then a.message else s.error
    // currentCity
    ensures a.CityLoaded? || a.CityCreated? ==> r.currentCity == Some(a.city)
    ensures a.CityDeleted? ==> r.currentCity == None
    ensures a.Loading? || a.CitiesLoaded? || a.Rejected? ==> r.currentCity == s.currentCity
    // cities
    ensures a.Loading? || a.CityLoaded? || a.Rejected? ==> r.cities == s.cities
    ensures a.CitiesLoaded? ==> r.cities == a.cities
    ensures a.CityCreated? ==>
      |r.cities| == |s.cities| + 1 && r.cities[..|s.cities|] == s.cities && r.cities[|s.cities|] == a.city
    ensures a.CityDeleted? ==> r.cities == RemoveCity(s.cities, a.id)
  {
    match a
    case Loading => s.(isLoading := true)
    case CitiesLoaded(payload) => s.(isLoading := false, cities := payload)
    case CityLoaded(payload) => s.(isLoading := false, currentCity := Some(payload))
    case CityCreated(payload) =>
      s.(isLoading := false, cities := s.cities + [payload], currentCity := Some(payload))
    case CityDeleted(payload) =>
      s.(isLoading := false, cities := RemoveCity(s.cities, payload), currentCity := None)
    case Rejected(payload) => s.(isLoading := false, error := payload)
  }

  /** `city/deleted`: keeps exactly the other entries, in order, never grows, and clears the selection. */
  lemma CityDeletedFilters(s: State, id: CityId)
    ensures var r := Reduce(s, CityDeleted(id));
      && (forall c :: c in r.cities <==> c in s.cities && c.id != id)
      && (forall k :: 0 <= k <= |s.cities| ==>
            r.cities == RemoveCity(s.cities[..k], id) + RemoveCity(s.cities[k..], id))
      && |r.cities| <= |s.cities|
      && (!HasId(s.cities, id) <==> r.cities == s.cities)
      && r.currentCity == None && !r.isLoading && r.error == s.error
  {
    RemoveCityMembers(s.cities, id);
    RemoveCityUnchanged(s.cities, id);
    forall k | 0 <= k <= |s.cities|
      ensures RemoveCity(s.cities, id) == RemoveCity(s.cities[..k], id) + RemoveCity(s.cities[k..], id)
    {
      assert s.cities == s.cities[..k] + s.cities[k..];
      RemoveCityAppend(s.cities[..k], s.cities[k..], id);
    }
  }

  /** Every action but `city/created` gives the same state when applied twice. */
  lemma ReduceIdempotent(s: State, a: Action)
    requires !a.CityCreated?
    ensures Reduce(Reduce(s, a), a) == Reduce(s, a)
  {
    if a.CityDeleted? {
      RemoveCityIdempotent(s.cities, a.id);
    }
  }

  /** `city/created` is not idempotent: a second application appends the payload again. */
  lemma CityCreatedTwice(s: State, c: City)
    ensures Reduce(Reduce(s, CityCreated(c)), CityCreated(c)).cities == s.cities + [c, c]
    ensures Reduce(Reduce(s, CityCreated(c)), CityCreated(c)) != Reduce(s, CityCreated(c))
  {
    assert s.cities + [c] + [c] == s.cities + [c, c];
  }

  /** A transient `loading` leaves no trace once a terminal action settles the request. */
  lemma LoadingThenTerminal(s: State, t: Action)
    requires IsTerminal(t)
    ensures Reduce(Reduce(s, Loading), t) == Reduce(s, t)
    ensures !Reduce(Reduce(s, Loading), t).isLoading
  {
  }

  /**
    Unique ids are kept by every action whose payload does not break them itself:
    the reducer checks neither a loaded list nor a created city.
  */
  lemma ReducePreservesUniqueIds(s: State, a: Action)
    requires UniqueIds(s.cities)
    requires a.CitiesLoaded? ==> UniqueIds(a.cities)
    requires a.CityCreated? ==> !HasId(s.cities, a.city.id)
    ensures UniqueIds(Reduce(s, a).cities)
  {
    match a
    case CityCreated(c) => UniqueIdsSnoc(s.cities, c);
    case CityDeleted(id) => RemoveCityUnique(s.cities, id);
    case _ =>
  }

  /** Creating a city whose id is already listed yields a list with a repeated id. */
  lemma CityCreatedDuplicate(s: State, c: City)
    requires HasId(s.cities, c.id)
    ensures !UniqueIds(Reduce(s, CityCreated(c)).cities)
  {
    var r := Reduce(s, CityCreated(c)).cities;
    var d :| d in s.cities && d.id == c.id;
    var k :| 0 <= k < |s.cities| && s.cities[k] == d;
    assert r[k] == s.cities[k] && r[|s.cities|] == c;
  }

  // ---------------------------------------------------------------------
  // Sequences of dispatches

  /** The state after dispatching `acts` in order, starting from `s`. */
  function Run(s: State, acts: seq<Action>): State
    decreases |acts|
  {
    if acts == [] then s else Run(Reduce(s, acts[0]), acts[1..])
  }

  lemma {:induction false} RunAppend(s: State, acts: seq<Action>, a: Action)
    ensures Run(s, acts + [a]) == Reduce(Run(s, acts), a)
    decreases |acts|
  {
    if acts == [] {
      assert acts + [a] == [a];
    } else {
      assert (acts + [a])[0] == acts[0];
      assert (acts + [a])[1..] == acts[1..] + [a];
      RunAppend(Reduce(s, acts[0]), acts[1..], a);
    }
  }

  /** After any non-empty sequence of dispatches, the store is loading exactly when the last one was `loading`. */
  lemma {:induction false} RunLoadingFlag(s: State, acts: seq<Action>)
    requires acts != []
    ensures Run(s, acts).isLoading <==> acts[|acts| - 1] == Loading
  {
    var n := |acts| - 1;
    assert acts == acts[..n] + [acts[n]];
    RunAppend(s, acts[..n], acts[n]);
  }

  /** The message of the last `rejected` in `acts`, or `fallback` when there is none. */
  function LastRejection(acts: seq<Action>, fallback: string): string
  {
    if acts == [] then fallback
    else if acts[|acts| - 1].Rejected? then acts[|acts| - 1].message
    else LastRejection(acts[..|acts| - 1], fallback)
  }

  /** The error persists until the next `rejected`: no other action clears or changes it. */
  lemma {:induction false} RunError(s: State, acts: seq<Action>)
    ensures Run(s, acts).error == LastRejection(acts, s.error)
    decreases |acts|
  {
    if acts != [] {
      var n := |acts| - 1;
      assert acts == acts[..n] + [acts[n]];
      RunAppend(s, acts[..n], acts[n]);
      RunError(s, acts[..n]);
    }
  }

  // ---------------------------------------------------------------------
  // What each store operation dispatches

  /** The result of a network request: resolved with a payload, or failed. */
  datatype Outcome<T> = Resolved(value: T) | Failed

  const LoadCitiesError: string := "There was an error loading data..."
  const LoadCityError: string := "There was an error loading city..."
  const CreateCityError: string := "There was an error creating the city..."
  const DeleteCityError: string := "There was an error deleting the data..."

  /** An operation that runs: `loading` followed by exactly one terminal action. */
  predicate IsOperation(d: seq<Action>) {
    |d| == 2 && d[0] == Loading && IsTerminal(d[1])
  }

  /** Dispatching an operation ends settled, as if only its terminal action had been dispatched. */
  lemma OperationSettles(s: State, d: seq<Action>)
    requires IsOperation(d)
    ensures Run(s, d) == Reduce(s, d[1])
    ensures !Run(s, d).isLoading
  {
    var mid := Reduce(s, Loading);
    assert d[1..][0] == d[1] && d[1..][1..] == [];
    assert Run(s, d) == Run(mid, d[1..]);
    assert Run(mid, d[1..]) == Run(Reduce(mid, d[1]), []);
    LoadingThenTerminal(s, d[1]);
  }

  function FetchCitiesDispatches(listing: Outcome<seq<City>>): (d: seq<Action>)
    ensures IsOperation(d)
    ensures d[1].CitiesLoaded? <==> listing.Resolved?
    ensures listing.Resolved? ==> d[1].cities == listing.value
    ensures listing.Failed? ==> d[1] == Rejected(LoadCitiesError)
  {
    match listing
    case Resolved(data) => [Loading, CitiesLoaded(data)]
    case Failed => [Loading, Rejected(LoadCitiesError)]
  }

  /** `getCity` is skipped when the requested id is that of the current city. */
  predicate SkipsGetCity(s: State, id: CityId) {
    s.currentCity.Some? && s.currentCity.value.id == id
  }

  function GetCityDispatches(s: State, id: CityId, response: Outcome<City>): (d: seq<Action>)
    ensures d == [] <==> (exists c :: s.currentCity == Some(c) && c.id == id)
    ensures s.currentCity == None ==> IsOperation(d)
    ensures d != [] ==> IsOperation(d) && (d[1].CityLoaded? <==> response.Resolved?)
    ensures d != [] && response.Resolved? ==> d[1].city == response.value
    ensures d != [] && response.Failed? ==> d[1] == Rejected(LoadCityError)
  {
    if SkipsGetCity(s, id) then []
    else
      match response
      case Resolved(data) => [Loading, CityLoaded(data)]
      case Failed => [Loading, Rejected(LoadCityError)]
  }

  function CreateCityDispatches(response: Outcome<City>): (d: seq<Action>)
    ensures IsOperation(d)
    ensures d[1].CityCreated? <==> response.Resolved?
    ensures response.Resolved? ==> d[1].city == response.value
    ensures response.Failed? ==> d[1] == Rejected(CreateCityError)
  {
    match response
    case Resolved(data) => [Loading, CityCreated(data)]
    case Failed => [Loading, Rejected(CreateCityError)]
  }

  /** On success the dispatched payload is the requested id; the response body is ignored. */
  function DeleteCityDispatches(id: CityId, response: Outcome<()>): (d: seq<Action>)
    ensures IsOperation(d)
    ensures d[1].CityDeleted? <==> response.Resolved?
    ensures response.Resolved? ==> d[1].id == id
    ensures response.Failed? ==> d[1] == Rejected(DeleteCityError)
  {
    match response
    case Resolved(_) => [Loading, CityDeleted(id)]
    case Failed => [Loading, Rejected(DeleteCityError)]
  }

  // ---------------------------------------------------------------------
  // Worked scenarios

  const Lima: City := City(7, "Lima", "Peru", "", "", "", Position(0.0, 0.0))

  function CityWithId(id: CityId): City {
    City(id, "", "", "", "", "", Position(0.0, 0.0))
  }

  lemma ScenarioInitialLoad()
    ensures Run(Initial, [Loading]) == Initial.(isLoading := true)
    ensures Run(Initial, [Loading, CitiesLoaded([CityWithId(1)])])
         == State([CityWithId(1)], None, false, "")
  {
    assert [Loading, CitiesLoaded([CityWithId(1)])][1..] == [CitiesLoaded([CityWithId(1)])];
  }

  lemma ScenarioCreate(s: State)
    requires s.cities == [CityWithId(1)]
    ensures Reduce(s, CityCreated(Lima)).cities == [CityWithId(1), Lima]
    ensures Reduce(s, CityCreated(Lima)).currentCity == Some(Lima)
  {
  }

  lemma ScenarioDelete(s: State)
    requires s.cities == [CityWithId(1), CityWithId(2)] && s.currentCity == Some(CityWithId(1))
    ensures Reduce(s, CityDeleted(1)).cities == [CityWithId(2)]
    ensures Reduce(s, CityDeleted(1)).currentCity == None
  {
    var rest := [CityWithId(2)];
    assert s.cities[1..] == rest && rest[1..] == [];
    assert RemoveCity(rest, 1) == [CityWithId(2)] + RemoveCity([], 1);
    assert RemoveCity(s.cities, 1) == RemoveCity(rest, 1);
  }
}
