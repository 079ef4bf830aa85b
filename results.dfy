/** Success and failure values, and the Python exceptions that the two
    scripts raise, as data. */
module Results {

  datatype Option<+T> = None | Some(value: T)

  /** The exceptions raised by the modelled code, with what their messages carry. */
  datatype PyError =
    | FileNotFound(path: string)          // FileNotFoundError / IOError on a missing file
    | KeyError(key: string)               // a dict lookup of an absent key
    | IndexError                          // a list index out of range
    | TypeError                           // an operand of the wrong JSON type
    | ValueError(text: string)            // int() of a string that is not an integer
    | RuntimeError(expected: int, found: nat)  // add_downscale: wrong number of levels
    | ArgumentError(arg: string)          // argparse rejecting a command-line argument

  datatype Result<+T> = Success(value: T) | Failure(error: PyError)

  /** The outcome of a procedure that returns nothing or raises. */
  datatype Outcome = Pass | Fail(error: PyError)
}

/** Python's `dict` built from `(key, value)` items in iteration order, as a
    dict comprehension or `dict(items)` builds it: a later item for the same
    key replaces the earlier one. */
module PyDict {

  function DictOf<K, V>(items: seq<(K, V)>): map<K, V>
    decreases |items|
  {
    if items == [] then map[]
    else DictOf(items[..|items| - 1])[items[|items| - 1].0 := items[|items| - 1].1]
  }

  /** The keys of the dict are exactly the keys of the items. */
  lemma {:induction false} DictOfKeys<K, V>(items: seq<(K, V)>)
    ensures forall k :: k in DictOf(items) <==> exists i :: 0 <= i < |items| && items[i].0 == k
    decreases |items|
  {
    if items != [] {
      var init := items[..|items| - 1];
      DictOfKeys(init);
      assert forall i :: 0 <= i < |init| ==> init[i] == items[i];
    }
  }

  /** An item that no later item overrides gives the key its value. */
  lemma {:induction false} DictOfLastWins<K, V>(items: seq<(K, V)>, i: nat)
    requires i < |items|
    requires forall j :: i < j < |items| ==> items[j].0 != items[i].0
    ensures items[i].0 in DictOf(items) && DictOf(items)[items[i].0] == items[i].1
    decreases |items|
  {
    if i < |items| - 1 {
      var init := items[..|items| - 1];
      assert forall j :: 0 <= j < |init| ==> init[j] == items[j];
      DictOfLastWins(init, i);
    }
  }
}
