/** What several modules share. */
module Common {

  datatype Option<+T> = None | Some(value: T)

  /** A loop that has handled `i` entries takes the next one, or is done. */
  lemma OneMore<T>(list: seq<T>, i: nat)
    requires i <= |list|
    ensures i < |list| ==> list[..i + 1] == list[..i] + [list[i]]
    ensures i == |list| ==> list[..i] == list
  {
  }

  ghost predicate NoRepeat<T>(list: seq<T>) { forall i, j :: 0 <= i < j < |list| ==> list[i] != list[j] }
}
