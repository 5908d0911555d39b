/** The dashboard: summary statistics folded over the property collection,
    and the featured properties. */
module Home {
  import opened Wrappers
  import opened Seqs
  import opened Records

  datatype Stats = Stats(totalProperties: nat, availableProperties: nat, activeContracts: nat, pendingRequests: nat)

  /** The statistics shown before anything has loaded. */
  const InitialStats := Stats(0, 0, 0, 0)

  datatype HomeState = HomeState(stats: Stats, featured: seq<Property>)

  const InitialHome := HomeState(InitialStats, [])

  const ActiveStatus := "activo"
  const PendingStatus := "pendiente"

  predicate IsAvailable(p: Property) {
    p.disponible
  }

  predicate IsActive(c: Contract) {
    c.estado == ActiveStatus
  }

  predicate IsPending(r: RentalRequest) {
    r.estado == PendingStatus
  }

  /** Number of a property's contracts with status "activo"; `None` when the
      record has no contract list, where the component's `filter` would throw. */
  function ActiveIn(p: Property): Option<nat> {
    match p.contratos
    case Some(cs) => Some(|Filter(IsActive, cs)|)
    case None => None
  }

  /** Number of a property's rental requests with status "pendiente"; `None`
      when the record has no request list. */
  function PendingIn(p: Property): Option<nat> {
    match p.solicitudesRenta
    case Some(rs) => Some(|Filter(IsPending, rs)|)
    case None => None
  }

  /** Adds two partial counts; a missing count makes the sum missing. */
  function AddCounts(a: Option<nat>, b: Option<nat>): (r: Option<nat>)
    ensures r.Some? <==> a.Some? && b.Some?
    ensures r.Some? ==> r.value == a.value + b.value
  {
    if a.Some? && b.Some? then Some(a.value + b.value) else None
  }

  /** `properties.reduce((acc, p) => acc + count(p), 0)`, folding left to
      right. It has a value exactly when every record's count does, and
      `None` stands for the `TypeError` a missing nested list raises. */
  function SumOf(count: Property -> Option<nat>, ps: seq<Property>): (r: Option<nat>)
    ensures r.Some? <==> forall k :: 0 <= k < |ps| ==> count(ps[k]).Some?
    decreases |ps|
  {
    if |ps| == 0 then Some(0)
    else
      var init := ps[..|ps| - 1];
      assert forall k :: 0 <= k < |init| ==> init[k] == ps[k];
      AddCounts(SumOf(count, init), count(ps[|ps| - 1]))
  }

  /** The fold is additive over concatenation. */
  lemma {:induction false} SumOfAppend(count: Property -> Option<nat>, xs: seq<Property>, ys: seq<Property>)
    ensures SumOf(count, xs + ys) == AddCounts(SumOf(count, xs), SumOf(count, ys))
    decreases |ys|
  {
    if |ys| == 0 {
      assert xs + ys == xs;
    } else {
      var ys' := ys[..|ys| - 1];
      assert (xs + ys)[..|xs + ys| - 1] == xs + ys';
      SumOfAppend(count, xs, ys');
    }
  }

  /** The active-contract sum: it has a value exactly when every record
      carries a contract list. */
  function SumActive(ps: seq<Property>): (r: Option<nat>)
    ensures r.Some? <==> forall k :: 0 <= k < |ps| ==> ps[k].contratos.Some?
  {
    SumOf(ActiveIn, ps)
  }

  /** The pending-request sum: it has a value exactly when every record
      carries a request list. */
  function SumPending(ps: seq<Property>): (r: Option<nat>)
    ensures r.Some? <==> forall k :: 0 <= k < |ps| ==> ps[k].solicitudesRenta.Some?
  {
    SumOf(PendingIn, ps)
  }

  /** The statistics of a collection, or `None` when the fold would throw
      on a record missing its contract or request list. When they exist,
      the total is the collection length, the available count is the
      number of available properties and never exceeds the total, and the
      other two are the nested sums. */
  function StatsOf(ps: seq<Property>): (r: Option<Stats>)
    ensures r.Some? <==>
      forall k :: 0 <= k < |ps| ==> ps[k].contratos.Some? && ps[k].solicitudesRenta.Some?
    ensures r.Some? ==>
      && r.value.totalProperties == |ps|
      && r.value.availableProperties <= r.value.totalProperties
      && r.value.availableProperties == |Filter(IsAvailable, ps)|
      && r.value.activeContracts == SumActive(ps).value
      && r.value.pendingRequests == SumPending(ps).value
  {
    var active := SumActive(ps);
    var pending := SumPending(ps);
    if active.Some? && pending.Some? then
      Some(Stats(|ps|, |Filter(IsAvailable, ps)|, active.value, pending.value))
    else
      None
  }

  /** Component-wise sum of two statistics. */
  function AddStats(a: Stats, b: Stats): Stats {
    Stats(a.totalProperties + b.totalProperties, a.availableProperties + b.availableProperties,
          a.activeContracts + b.activeContracts, a.pendingRequests + b.pendingRequests)
  }

  /** An empty collection has all-zero statistics, the initial ones. */
  lemma EmptyStats()
    ensures StatsOf([]) == Some(InitialStats)
  {
  }

  /** The statistics are additive over concatenation: the statistics of
      `xs + ys` are the component-wise sum of those of the parts, and exist
      exactly when both parts' do. */
  lemma StatsAdditive(xs: seq<Property>, ys: seq<Property>)
    ensures StatsOf(xs + ys).Some? <==> StatsOf(xs).Some? && StatsOf(ys).Some?
    ensures StatsOf(xs + ys).Some? ==>
      StatsOf(xs + ys).value == AddStats(StatsOf(xs).value, StatsOf(ys).value)
  {
    SumOfAppend(ActiveIn, xs, ys);
    SumOfAppend(PendingIn, xs, ys);
    FilterAppend(IsAvailable, xs, ys);
  }

  /** A property with empty contract and request lists adds nothing to the
      two nested sums. */
  lemma EmptyPropertyAddsNothing(ps: seq<Property>, p: Property)
    requires p.contratos == Some([]) && p.solicitudesRenta == Some([])
    requires StatsOf(ps).Some?
    ensures StatsOf(ps + [p]).Some?
    ensures StatsOf(ps + [p]).value.activeContracts == StatsOf(ps).value.activeContracts
    ensures StatsOf(ps + [p]).value.pendingRequests == StatsOf(ps).value.pendingRequests
  {
    assert [p][..0] == [];
    assert ActiveIn(p) == Some(0) && PendingIn(p) == Some(0);
    assert SumOf(ActiveIn, [p]) == Some(0) && SumOf(PendingIn, [p]) == Some(0);
    StatsAdditive(ps, [p]);
  }

  /** `properties.slice(0, 3)`: the first three properties, or all of them
      when there are fewer. */
  function Featured(ps: seq<Property>): (r: seq<Property>)
    ensures |r| == if |ps| < 3 then |ps| else 3
    ensures forall k :: 0 <= k < |r| ==> r[k] == ps[k]
  {
    if |ps| < 3 then ps else ps[..3]
  }

  /** `fetchData`: one GET of the collection. On failure nothing changes. On
      success the featured list is replaced, and the statistics too unless
      the fold throws, in which case the earlier statistics stay. */
  function LoadDashboard(st: HomeState, reply: Reply<seq<Property>>): (e: Effect<HomeState>)
    ensures e.calls == [ListProperties]
    ensures reply.Failed? ==> e.state == st
    ensures reply.Ok? ==> e.state.featured == Featured(reply.value)
    ensures reply.Ok? && StatsOf(reply.value).Some? ==> e.state.stats == StatsOf(reply.value).value
    ensures reply.Ok? && StatsOf(reply.value).None? ==> e.state.stats == st.stats
  {
    match reply
    case Failed => Effect(st, [ListProperties])
    case Ok(ps) =>
      var stats := if StatsOf(ps).Some? then StatsOf(ps).value else st.stats;
      Effect(HomeState(stats, Featured(ps)), [ListProperties])
  }

  /** Loading from the initial dashboard, a collection whose records all
      carry their nested lists shows its length and available count. */
  lemma LoadShowsCounts(ps: seq<Property>)
    requires forall k :: 0 <= k < |ps| ==> ps[k].contratos.Some? && ps[k].solicitudesRenta.Some?
    ensures LoadDashboard(InitialHome, Ok(ps)).state.stats.totalProperties == |ps|
    ensures LoadDashboard(InitialHome, Ok(ps)).state.stats.availableProperties
      == |Filter(IsAvailable, ps)|
  {
  }
}
