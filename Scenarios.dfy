/** The two-record inventory used as a worked example of the list view:
    a bolt and a nut, both hardware, prices in cents. */
module Scenarios {
  import opened Text
  import opened Items
  import opened Search
  import opened Sorting

  const Bolt := Item(1, "Bolt", 10, 50, "Hardware")
  const Nut := Item(2, "Nut", 100, 10, "Hardware")

  /** A query whose first letter never appears in `s` is not found in it. */
  lemma {:induction false} FirstLetterAbsent(s: string, t: string)
    requires t != []
    requires forall i :: 0 <= i < |s| ==> s[i] != t[0]
    ensures !Includes(s, t)
    decreases |s|
  {
    if s != [] {
      assert s[0] != t[0];
      assert !StartsWith(s, t);
      FirstLetterAbsent(s[1..], t);
    }
  }

  /** The bolt's name contains "bolt" once both are lower-cased. */
  lemma BoltMatches()
    ensures Matches(Bolt, "bolt")
  {
    assert ToLower("Bolt") == "bolt" && ToLower("bolt") == "bolt";
    assert StartsWith("bolt", "bolt");
  }

  /** Neither the nut's name nor its category contains "bolt". */
  lemma NutDoesNotMatch()
    ensures !Matches(Nut, "bolt")
  {
    var q := ToLower("bolt");
    assert q[0] == 'b';
    FirstLetterAbsent(ToLower("Nut"), q);
    FirstLetterAbsent(ToLower("Hardware"), q);
  }

  /** Searching "bolt" finds the bolt only, whatever the case of its name. */
  lemma SearchBolt()
    ensures Filter([Bolt, Nut], "bolt") == [Bolt]
  {
    BoltMatches();
    NutDoesNotMatch();
    assert [Bolt, Nut][1..] == [Nut];
    assert [Nut][1..] == [];
  }

  /** Sorting the two records by price, ascending, puts the nut first. */
  lemma SortByPrice()
    ensures SortBy([Bolt, Nut], Price, Asc) == [Nut, Bolt]
  {
    assert [Bolt, Nut][1..] == [Nut];
    assert SortBy([Nut], Price, Asc) == [Nut];
  }
}
