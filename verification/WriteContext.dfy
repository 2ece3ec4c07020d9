/**
 A write context that serves transaction after transaction, as the sync loop uses one.

 The hook of a store takes the routers of the input tables, which defers the flush of their writers from then on: such a
 flush waits for the signals that storing at least one block sends.
 */
module WriteContext {

  /** Are the flushes of a context deferred, once a transaction that may store blocks has done its work? */
  predicate Deferred(before: bool, hooked: bool, stores: bool) {
    before || (hooked && stores)
  }

  /** Does the commit of a transaction end? */
  predicate Commits(before: bool, stores: bool) {
    before ==> stores
  }
}
