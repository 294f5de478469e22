/**
 * The performance counters handed to the converter. Only the fields the
 * converter reads are kept; numbers are modelled as reals.
 */
module Counters {

  /** The counter kinds of the counters library, in its enumeration order. */
  datatype CounterType = Interval | LastValue | Statistics | Timestamp | Increment

  /** A counter as read by the converter: its dotted name, its kind and the
      numeric fields the kinds use (`count` for Increment, `last` for LastValue,
      `min`, `max`, `average` and `count` for Interval and Statistics). */
  datatype Counter = Counter(
    name: string,
    kind: CounterType,
    last: real,
    count: real,
    min: real,
    max: real,
    average: real)
}
