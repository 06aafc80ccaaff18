/** Stored data and its order.

    The tree only ever compares data with `<`, `>` and `==`, and map nodes compare
    by key alone. Every countable total order embeds in the reals, so a real key
    stands for any key type whose three operators agree on one total order. */
module Items {

  type Key = real

  type Value(==, 0, !new)

  datatype Item = Item(key: Key, value: Value)
}
