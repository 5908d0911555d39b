/** The property table: the search-and-filter predicate that decides which
    rows are shown, and the list update after a delete. */
module PropertyList {
  import opened Wrappers
  import opened Text
  import opened Seqs
  import opened Records

  /** Values of the availability selector. */
  const AllValue := "all"
  const AvailableValue := "available"
  const RentedValue := "rented"

  /** The filter panel: the availability selector and the optional price
      bounds (`None` when the input is left empty). */
  datatype Filters = Filters(disponible: string, minPrice: Option<int>, maxPrice: Option<int>)

  const InitialFilters := Filters(AllValue, None, None)

  /** The table's state: the loaded properties and the error banner. */
  datatype ListState = ListState(properties: seq<Property>, error: Option<string>)

  const DeleteError := "Error al eliminar la propiedad. Intente de nuevo."

  predicate MatchesSearch(p: Property, term: string) {
    Contains(ToLower(p.ubicacion), ToLower(term))
  }

  predicate MatchesAvailability(p: Property, f: Filters) {
    || f.disponible == AllValue
    || (f.disponible == AvailableValue && p.disponible)
    || (f.disponible == RentedValue && !p.disponible)
  }

  predicate MatchesMinPrice(p: Property, f: Filters) {
    f.minPrice.None? || p.precio >= f.minPrice.value
  }

  predicate MatchesMaxPrice(p: Property, f: Filters) {
    f.maxPrice.None? || p.precio <= f.maxPrice.value
  }

  /** The row predicate: the conjunction of the four checks. The initial
      panel with an empty search admits every property; an availability
      value outside the three offered admits none. */
  predicate Matches(p: Property, term: string, f: Filters)
    ensures term == "" && f == InitialFilters ==> Matches(p, term, f)
    ensures f.disponible !in {AllValue, AvailableValue, RentedValue} ==> !Matches(p, term, f)
  {
    MatchesSearch(p, term) && MatchesAvailability(p, f) && MatchesMinPrice(p, f) && MatchesMaxPrice(p, f)
  }

  /** The rows shown: exactly the properties passing all four checks, in
      their loaded order, never more than the properties loaded. */
  function FilteredProperties(ps: seq<Property>, term: string, f: Filters): (r: seq<Property>)
    ensures IsSubsequence(r, ps)
    ensures |r| <= |ps|
    ensures forall k :: 0 <= k < |r| ==> r[k] in ps && Matches(r[k], term, f)
    ensures forall k :: 0 <= k < |ps| && Matches(ps[k], term, f) ==> ps[k] in r
    ensures forall x :: multiset(r)[x] == if Matches(x, term, f) then multiset(ps)[x] else 0
  {
    FilterIsSubsequence(p => Matches(p, term, f), ps);
    FilterMultiset(p => Matches(p, term, f), ps);
    Filter(p => Matches(p, term, f), ps)
  }

  /** With an empty search and the initial filter panel, every property is shown. */
  lemma NoFilterShowsAll(ps: seq<Property>)
    ensures FilteredProperties(ps, "", InitialFilters) == ps
  {
    FilterKeepsAll(p => Matches(p, "", InitialFilters), ps);
  }

  /** The availability selector: "available" keeps only available
      properties, "rented" only rented ones, and any value other than these
      and "all" shows nothing. */
  lemma AvailabilityFilter(ps: seq<Property>, term: string, f: Filters)
    ensures f.disponible == AvailableValue ==>
      forall p :: p in FilteredProperties(ps, term, f) ==> p.disponible
    ensures f.disponible == RentedValue ==>
      forall p :: p in FilteredProperties(ps, term, f) ==> !p.disponible
    ensures f.disponible !in {AllValue, AvailableValue, RentedValue} ==>
      FilteredProperties(ps, term, f) == []
  {
  }

  /** A set minimum and maximum price bound every shown property's price. */
  lemma PriceBounds(ps: seq<Property>, term: string, f: Filters)
    ensures f.minPrice.Some? ==>
      forall p :: p in FilteredProperties(ps, term, f) ==> p.precio >= f.minPrice.value
    ensures f.maxPrice.Some? ==>
      forall p :: p in FilteredProperties(ps, term, f) ==> p.precio <= f.maxPrice.value
  {
  }

  /** A shown property's lower-cased location contains the lower-cased
      search term at some position. */
  lemma SearchTermOccurs(ps: seq<Property>, term: string, f: Filters)
    ensures forall p :: p in FilteredProperties(ps, term, f) ==>
      exists i :: OccursAt(ToLower(p.ubicacion), ToLower(term), i)
  {
    forall p | p in FilteredProperties(ps, term, f)
      ensures exists i :: OccursAt(ToLower(p.ubicacion), ToLower(term), i)
    {
      ContainsIffOccurs(ToLower(p.ubicacion), ToLower(term));
    }
  }

  /** `handleDelete`: unless confirmed nothing happens; otherwise one DELETE
      is issued, and on success the properties with that id are dropped and
      all others kept in order, while on failure the list stays and the
      error banner is set. */
  function HandleDelete(st: ListState, id: string, confirmed: bool, reply: Reply<()>): (e: Effect<ListState>)
    ensures !confirmed ==> e == Effect(st, [])
    ensures confirmed ==> e.calls == [DeleteProperty(id)]
    ensures confirmed && reply.Ok? ==>
      && e.state.error == st.error
      && IsSubsequence(e.state.properties, st.properties)
      && (forall k :: 0 <= k < |e.state.properties| ==> e.state.properties[k].id != id)
      && (forall k :: 0 <= k < |st.properties| && st.properties[k].id != id ==>
            st.properties[k] in e.state.properties)
      && (forall x :: multiset(e.state.properties)[x] ==
            if x.id != id then multiset(st.properties)[x] else 0)
    ensures confirmed && reply.Failed? ==> e.state == st.(error := Some(DeleteError))
  {
    if !confirmed then
      Effect(st, [])
    else
      match reply
      case Ok(_) =>
        FilterIsSubsequence((p: Property) => p.id != id, st.properties);
        FilterMultiset((p: Property) => p.id != id, st.properties);
        Effect(st.(properties := Filter((p: Property) => p.id != id, st.properties)), [DeleteProperty(id)])
      case Failed =>
        Effect(st.(error := Some(DeleteError)), [DeleteProperty(id)])
  }
}
