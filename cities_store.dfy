/**
  The city store: one mutable state cell that, once initialised, changes only
  through `Dispatch`, and the four operations that dispatch `loading` and then
  one terminal action chosen by the outcome of their network request (except
  `GetCity` for the current city's id, which dispatches nothing).
*/
module CitiesStore {
  import opened CitiesReducer

  class Store {
    /** The reducer's state, as the provider holds it. */
    var state: State
    /** Every action dispatched so far, in order. */
    ghost var log: seq<Action>

    /** The state is the reducer folded over the dispatched actions. */
    ghost predicate Consistent()
      reads this
    {
      state == Run(Initial, log)
    }

    /** Consistent and settled: no request is left loading. */
    ghost predicate Valid()
      reads this
    {
      Consistent() && !state.isLoading
    }

    /** Mounting the provider: the initial state, then the one initial list fetch. */
    constructor (listing: Outcome<seq<City>>)
      ensures Valid()
      ensures log == FetchCitiesDispatches(listing)
      ensures state.currentCity == None
      ensures listing.Resolved? ==> state.cities == listing.value && state.error == ""
      ensures listing.Failed? ==> state.cities == [] && state.error == LoadCitiesError
    {
      state := Initial;
      log := [];
      new;
      FetchCities(listing);
    }

    method Dispatch(a: Action)
      requires Consistent()
      modifies this
      ensures Consistent()
      ensures log == old(log) + [a]
      ensures state == Reduce(old(state), a)
    {
      RunAppend(Initial, log, a);
      state := Reduce(state, a);
      log := log + [a];
    }

    /**
      The initial list fetch. In the source it exists only inside the provider's run-once
      effect, so the constructor is its only caller there; it is not part of the store's
      exposed value.
    */
    method FetchCities(listing: Outcome<seq<City>>)
      requires Consistent()
      modifies this
      ensures Valid()
      ensures log == old(log) + FetchCitiesDispatches(listing)
      ensures state == Run(old(state), FetchCitiesDispatches(listing))
      ensures state.currentCity == old(state.currentCity)
      ensures listing.Resolved? ==> state.cities == listing.value && state.error == old(state.error)
      ensures listing.Failed? ==> state.cities == old(state.cities) && state.error == LoadCitiesError
    {
      ghost var d := FetchCitiesDispatches(listing);
      OperationSettles(state, d);
      Dispatch(Loading);
      match listing {
        case Resolved(data) => Dispatch(CitiesLoaded(data));
        case Failed => Dispatch(Rejected(LoadCitiesError));
      }
      assert log == old(log) + d;
    }

    method GetCity(id: CityId, response: Outcome<City>)
      requires Consistent()
      modifies this
      ensures Consistent()
      ensures log == old(log) + GetCityDispatches(old(state), id, response)
      ensures state == Run(old(state), GetCityDispatches(old(state), id, response))
      ensures SkipsGetCity(old(state), id) ==> state == old(state) && log == old(log)
      ensures !SkipsGetCity(old(state), id) ==> !state.isLoading
      ensures old(Valid()) ==> Valid()
      ensures !SkipsGetCity(old(state), id) ==>
        && state.cities == old(state.cities)
        && (response.Resolved? ==> state.currentCity == Some(response.value) && state.error == old(state.error))
        && (response.Failed? ==> state.currentCity == old(state.currentCity) && state.error == LoadCityError)
    {
      ghost var d := GetCityDispatches(state, id, response);
      if state.currentCity.Some? && id == state.currentCity.value.id {
        return;
      }
      OperationSettles(state, d);
      Dispatch(Loading);
      match response {
        case Resolved(data) => Dispatch(CityLoaded(data));
        case Failed => Dispatch(Rejected(LoadCityError));
      }
      assert log == old(log) + d;
    }

    method CreateCity(response: Outcome<City>)
      requires Consistent()
      modifies this
      ensures Valid()
      ensures log == old(log) + CreateCityDispatches(response)
      ensures state == Run(old(state), CreateCityDispatches(response))
      ensures response.Resolved? ==>
        && state.cities == old(state.cities) + [response.value]
        && state.currentCity == Some(response.value)
        && state.error == old(state.error)
      ensures response.Failed? ==>
        && state.cities == old(state.cities)
        && state.currentCity == old(state.currentCity)
        && state.error == CreateCityError
    {
      ghost var d := CreateCityDispatches(response);
      OperationSettles(state, d);
      Dispatch(Loading);
      match response {
        case Resolved(data) => Dispatch(CityCreated(data));
        case Failed => Dispatch(Rejected(CreateCityError));
      }
      assert log == old(log) + d;
    }

    method DeleteCity(id: CityId, response: Outcome<()>)
      requires Consistent()
      modifies this
      ensures Valid()
      ensures log == old(log) + DeleteCityDispatches(id, response)
      ensures state == Run(old(state), DeleteCityDispatches(id, response))
      ensures response.Resolved? ==>
        && (forall c :: c in state.cities <==> c in old(state.cities) && c.id != id)
        && (!HasId(old(state.cities), id) ==> state.cities == old(state.cities))
        && state.currentCity == None
        && state.error == old(state.error)
      ensures response.Failed? ==>
        && state.cities == old(state.cities)
        && state.currentCity == old(state.currentCity)
        && state.error == DeleteCityError
    {
      ghost var d := DeleteCityDispatches(id, response);
      OperationSettles(state, d);
      CityDeletedFilters(state, id);
      Dispatch(Loading);
      match response {
        case Resolved(_) => Dispatch(CityDeleted(id));
        case Failed => Dispatch(Rejected(DeleteCityError));
      }
      assert log == old(log) + d;
    }
  }
}
