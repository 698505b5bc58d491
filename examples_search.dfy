/** The scenarios of the repository's doc example and unit tests. */
module SearchExamples {
  import opened Wrappers
  import opened Midpoint
  import opened Bisection

  /** `|x| if x < 23 { Low(()) } else { High(()) }` */
  function Below23(x: Usize): Direction<(), ()>
  {
    if x < 23 then Low(()) else High(())
  }

  /** Searching 1..100 for the threshold 23 ends at `((22, ()), (23, ()))`. */
  lemma ThresholdExample()
    ensures BinarySearch((1, ()), (100, ()), Below23) == ((22, ()), (23, ()))
  {
    ThresholdSearch((1, ()), (100, ()), Below23, 23);
  }

  const SortedValues: seq<int> := [0, 4, 5, 6, 7, 9, 456]

  /** `|i| if values[i] < 6 { Low(()) } else { High(()) }`, defined only on indices. */
  function IndexBelow6(i: Usize): Direction<(), ()>
    requires i < |SortedValues|
  {
    if SortedValues[i] < 6 then Low(()) else High(())
  }

  /**
   * Searching the indices `0..values.len()` never reads `values[len]`
   * and ends between the last entry below 6 and the first one at least 6.
   */
  lemma IndexExample()
    ensures BinarySearch((0, ()), (|SortedValues|, ()), IndexBelow6) == ((2, ()), (3, ()))
  {
    forall x: Usize | 0 < x < |SortedValues|
      ensures IndexBelow6(x).Low? <==> x < 3
    {
      assert SortedValues[x] < 6 <==> x < 3;
    }
    ThresholdSearch((0, ()), (|SortedValues|, ()), IndexBelow6, 3);
  }

  /** Rust's `Result<&str, bool>` of the witness test. */
  datatype Entry = Ok(s: string) | Err(e: bool)

  const Entries: seq<Entry> := [Ok("foo"), Ok("bar"), Ok("baz"), Err(false), Err(true)]

  /** `Ok(x) => Low(x)`, `Err(x) => High(x)`, defined only on indices. */
  function ClassifyEntry(i: Usize): Direction<string, bool>
    requires i < |Entries|
  {
    match Entries[i]
    case Ok(s) => Low(s)
    case Err(e) => High(e)
  }

  /**
   * Starting from `(0, "bar")` and `(4, true)`, the witnesses returned are
   * the ones last attached to each side: `"baz"` and `false`.
   */
  lemma WitnessExample()
    ensures BinarySearch((0, "bar"), (4, true), ClassifyEntry) == ((2, "baz"), (3, false))
  {
    var r := BinarySearch((0, "bar"), (4, true), ClassifyEntry);
    forall x: Usize | 0 < x < 4
      ensures ClassifyEntry(x).Low? <==> x < 3
    {
      assert Entries[x].Ok? <==> x < 3;
    }
    ThresholdSearch((0, "bar"), (4, true), ClassifyEntry, 3);
    assert r.0.0 == 2 && r.1.0 == 3;
    assert ClassifyEntry(2) == Low("baz");
    assert ClassifyEntry(3) == High(false);
  }
}
