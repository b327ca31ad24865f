/** The status enum shared by step reports and task reports. */
module StatusEnum {
  import opened Outcome

  datatype Status = SUCCESS | RUNNING | FAILURE

  /** Enum.name(): the identifier of a constant. */
  function Name(s: Status): string {
    match s
    case SUCCESS => "SUCCESS"
    case RUNNING => "RUNNING"
    case FAILURE => "FAILURE"
  }

  /** Enum.values(): every constant, in declaration order. */
  function Values(): seq<Status> {
    [SUCCESS, RUNNING, FAILURE]
  }

  /** Enum.valueOf(name): the constant with that identifier, if there is one. */
  function ValueOf(name: string): (r: Option<Status>)
    ensures r.Some? ==> Name(r.value) == name
    ensures r.None? ==> forall s: Status :: Name(s) != name
  {
    if name == "SUCCESS" then Some(SUCCESS)
    else if name == "RUNNING" then Some(RUNNING)
    else if name == "FAILURE" then Some(FAILURE)
    else None
  }

  /** The linear search of `contains`, over what is left of `values()`. */
  function ContainsIn(vs: seq<Status>, test: string): (found: bool)
    ensures found <==> exists i :: 0 <= i < |vs| && Name(vs[i]) == test
  {
    if vs == [] then false
    else if Name(vs[0]) == test then true
    else ContainsIn(vs[1..], test)
  }

  /** Status.contains(test): is `test` exactly the name of a constant? */
  function Contains(test: string): (found: bool)
    ensures found <==> exists s: Status :: Name(s) == test
  {
    var found := ContainsIn(Values(), test);
    if found then
      var i :| 0 <= i < |Values()| && Name(Values()[i]) == test;
      assert Name(Values()[i]) == test;
      found
    else
      assert Name(SUCCESS) != test && Name(RUNNING) != test && Name(FAILURE) != test by {
        assert Values() == [SUCCESS, RUNNING, FAILURE];
        assert Name(Values()[0]) != test && Name(Values()[1]) != test && Name(Values()[2]) != test;
      }
      found
  }

  /** The position of a constant in `Values()`. */
  function StatusIndex(s: Status): (i: nat)
    ensures i < |Values()| && Values()[i] == s
  {
    match s
    case SUCCESS => 0
    case RUNNING => 1
    case FAILURE => 2
  }

  /** There are exactly three statuses, each listed once by `values()`. */
  lemma ExactlyThreeStatuses()
    ensures |Values()| == 3
    ensures forall s: Status :: s in Values()
    ensures forall i, j :: 0 <= i < j < |Values()| ==> Values()[i] != Values()[j]
  {
    forall s: Status ensures s in Values() {
      assert Values()[StatusIndex(s)] == s;
    }
  }

  /** Distinct constants have distinct names. */
  lemma NameInjective(s: Status, t: Status)
    ensures Name(s) == Name(t) <==> s == t
  {
  }

  /** `name()` and `contains`/`valueOf` round-trip on every constant. */
  lemma NameRoundTrip(s: Status)
    ensures Contains(Name(s))
    ensures ValueOf(Name(s)) == Some(s)
  {
  }

  /** `contains` accepts exactly the names `valueOf` can parse. */
  lemma ContainsIffValueOf(test: string)
    ensures Contains(test) <==> ValueOf(test).Some?
  {
    if ValueOf(test).None? {
      assert forall s: Status :: Name(s) != test;
    }
  }

  /** The comparison is exact and case-sensitive: lower-case names are rejected. */
  lemma ContainsIsCaseSensitive()
    ensures !Contains("success") && !Contains("running") && !Contains("failure")
    ensures Contains("SUCCESS") && Contains("RUNNING") && Contains("FAILURE")
  {
    assert Name(SUCCESS) == "SUCCESS" && Name(RUNNING) == "RUNNING" && Name(FAILURE) == "FAILURE";
  }
}
