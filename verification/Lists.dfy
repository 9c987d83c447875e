/** Lists without repetitions. */
module Lists {
  predicate NoDup<T(==)>(list: seq<T>) {
    forall i, j :: 0 <= i < j < |list| ==> list[i] != list[j]
  }
}
