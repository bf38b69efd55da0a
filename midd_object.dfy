/** The internal middleware object that `make` creates for one decorated
    property: the main callback, the resolved parameters and the handler
    lists that registration appends to. */
module MiddObject {
  import opened Values

  const BeforeAfterKey := "beforeAfter"
  const CatchAllKey := "catchAll"
  const AsyncKey := "async"
  const ConcurrentKey := "concurrent"

  class MiddObj {
    var mainCallback: Handler
    var params: map<string, Value>
    /** A list that was never created reads as `None` (undefined in the source). */
    var beforeMidds: Option<seq<Handler>>
    var afterMidds: Option<seq<Handler>>
    var lastMidds: Option<seq<Handler>>
    var midds: Option<seq<Handler>>

    /** The shape `make` leaves the object in: the main callback is tagged,
        and exactly the lists of the chosen mode exist. */
    ghost predicate Valid()
      reads this
      ensures Valid() ==> (Phased() <==> midds.None?) && (Phased() <==> beforeMidds.Some?)
    {
      && mainCallback.isMain
      && (if Phased() then
            beforeMidds.Some? && afterMidds.Some? && lastMidds.Some? && midds.None?
          else
            midds.Some? && beforeMidds.None? && afterMidds.None? && lastMidds.None?)
    }

    /** Whether the `before`/`after`/`last` mode was chosen. */
    predicate Phased()
      reads this
      ensures Phased() ==> BeforeAfterKey in params
    {
      Truthy(Get(params, BeforeAfterKey))
    }

    /** `newMidd`: a fresh object whose main callback is the tagged no-op. */
    constructor ()
      ensures mainCallback == NoopMidd && mainCallback.isMain
      ensures params == map[]
      ensures beforeMidds.None? && afterMidds.None? && lastMidds.None? && midds.None?
    {
      mainCallback := NoopMidd;
      params := map[];
      beforeMidds, afterMidds, lastMidds, midds := None, None, None, None;
    }
  }
}
