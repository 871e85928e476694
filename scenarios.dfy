/** Small concrete runs of the list screen's derivation and toggle. */
module Scenarios {
  import opened Users
  import opened Text
  import opened Seqs
  import opened UserSort
  import opened UserList

  function Person(first: string, last: string, email: string, country: string, age: int): User {
    User(Female, Name("Ms", first, last), email, "", Dob("", age), Location("", country),
         Picture("", "", ""), Registered("", 0))
  }

  const ann := Person("Ann", "Lee", "ann@x.com", "UK", 30)
  const bo := Person("Bo", "Kim", "bo@x.com", "US", 40)

  /** Searching "bo" keeps Bo Kim only, whatever the collation. */
  lemma SearchBo(leq: (string, string) -> bool)
    requires TotalPreorder(leq)
    ensures Derive([ann, bo], All, "bo", ByName, leq) == [bo]
  {
    assert Lower("bo") == "bo";
    assert Lower(FullName(bo)) == "bo kim";
    assert Lower(FullName(ann)) == "ann lee";
    assert Contains("bo kim", "bo") by { assert StartsWith("bo kim", "bo"); }
    assert 'b' !in "ann lee";
    AbsentFirstChar("ann lee", "bo");
    assert Keep([ann, bo], NameIncludes("bo")) == [bo];
  }

  /** Toggling an email onto an empty list and off again. */
  lemma ToggleOnOff()
    ensures Toggle([], "ann@x.com") == ["ann@x.com"]
    ensures Toggle(["ann@x.com"], "ann@x.com") == []
  {
  }
}
