/** The record the map stores under each key. */
module Entries {

  /** The value of a key and how many successful lookups it has had. */
  datatype Entry<V> = Entry(value: V, frequency: nat)
}
