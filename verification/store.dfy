/**
 * The backing store of one soft-deletable entity: a table of rows keyed by
 * primary key. Every row carries the nullable `deleted_at` column; all other
 * columns are an opaque payload, so the model is generic over the entity.
 */
module Store {
  import opened Wrappers

  /** A primary-key value. */
  type Id = nat

  /** An instant as read from the clock. No ordering of instants is used. */
  type Time = int

  /** One stored row: its `deleted_at` column and every other column. */
  datatype Row<P> = Row(deletedAt: Option<Time>, payload: P) {

    /** A row is live exactly when `deleted_at` is null. */
    predicate IsLive() {
      deletedAt.None?
    }
  }

  /** The table of one entity. */
  type Table<P> = map<Id, Row<P>>

  /** Keys of the live rows. */
  function LiveIds<P>(t: Table<P>): set<Id> {
    set id | id in t && t[id].IsLive()
  }

  /** Keys of the soft-deleted rows. */
  function DeadIds<P>(t: Table<P>): set<Id> {
    set id | id in t && !t[id].IsLive()
  }
}
