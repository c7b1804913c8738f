/**
 * The helpers that flatten a decoded column (a list of `{name, job, ...}`
 * records) into a list of names: `convert`, `convert3` and `fetchDirector`,
 * and the per-name space stripping applied to their results.
 */
module Extract {
  import opened Results
  import Text

  /** One decoded record; a key the record lacks is `None`. */
  datatype Record = Record(name: Option<string>, job: Option<string>)

  const Director := "Director"

  predicate AllNamed(rs: seq<Record>) {
    forall i :: 0 <= i < |rs| ==> rs[i].name.Some?
  }

  /** `convert`: every record's name, in order; a record without a name
      raises KeyError('name'). */
  function Convert(rs: seq<Record>): (r: Result<seq<string>>)
    ensures r.Ok? <==> AllNamed(rs)
    ensures r.Ok? ==> |r.value| == |rs|
    ensures r.Ok? ==> forall i :: 0 <= i < |rs| ==> r.value[i] == rs[i].name.value
    ensures r.Err? ==> r.error == KeyError("name")
  {
    if |rs| == 0 then Ok([])
    else if rs[0].name.None? then Err(KeyError("name"))
    else
      var rest :- Convert(rs[1..]);
      Ok([rs[0].name.value] + rest)
  }

  /** The loop of `convert3` with `budget` names still to take. */
  function TakeNames(rs: seq<Record>, budget: nat): (r: Result<seq<string>>)
    ensures r.Ok? <==> AllNamed(rs[..Min(budget, |rs|)])
    ensures r.Ok? ==> |r.value| == Min(budget, |rs|)
    ensures r.Ok? ==> forall i :: 0 <= i < |r.value| ==> r.value[i] == rs[i].name.value
    ensures r.Err? ==> r.error == KeyError("name")
  {
    if budget == 0 || |rs| == 0 then Ok([])
    else if rs[0].name.None? then
      assert rs[..Min(budget, |rs|)][0] == rs[0];
      Err(KeyError("name"))
    else
      assert rs[1..][..Min(budget - 1, |rs| - 1)] == rs[1..Min(budget, |rs|)];
      var rest :- TakeNames(rs[1..], budget - 1);
      Ok([rs[0].name.value] + rest)
  }

  /** `convert3`: the names of the first three records (fewer when the list
      is shorter); records past the third are never looked at. */
  function Convert3(rs: seq<Record>): (r: Result<seq<string>>)
    ensures r.Ok? <==> AllNamed(rs[..Min(3, |rs|)])
    ensures r.Ok? ==> |r.value| == Min(3, |rs|)
    ensures r.Ok? ==> forall i :: 0 <= i < |r.value| ==> r.value[i] == rs[i].name.value
    ensures r.Err? ==> r.error == KeyError("name")
  {
    TakeNames(rs, 3)
  }

  /** Every record before position `k` has a job and that job is not Director. */
  predicate PassedOver(rs: seq<Record>, k: nat)
    requires k <= |rs|
  {
    forall j :: 0 <= j < k ==> rs[j].job.Some? && rs[j].job.value != Director
  }

  /** `fetchDirector`: the name of the first record whose job is Director, as
      a list of at most one name. The scan reads `job` of every record up to
      that one (KeyError('job') if one is missing) and `name` of that one only. */
  function FetchDirector(rs: seq<Record>): (r: Result<seq<string>>)
    ensures r.Ok? ==> |r.value| <= 1
    ensures r.Err? ==> r.error in {KeyError("job"), KeyError("name")}
    ensures r == Ok([]) <==> PassedOver(rs, |rs|)
    ensures forall k :: 0 <= k < |rs| && PassedOver(rs, k) && rs[k].job == Some(Director) ==>
      r == (if rs[k].name.Some? then Ok([rs[k].name.value]) else Err(KeyError("name")))
    ensures forall k :: 0 <= k < |rs| && PassedOver(rs, k) && rs[k].job.None? ==>
      r == Err(KeyError("job"))
  {
    if |rs| == 0 then Ok([])
    else if rs[0].job.None? then Err(KeyError("job"))
    else if rs[0].job.value == Director then
      if rs[0].name.Some? then Ok([rs[0].name.value]) else Err(KeyError("name"))
    else
      var r := FetchDirector(rs[1..]);
      assert forall k :: 1 <= k <= |rs| ==> (PassedOver(rs, k) <==> PassedOver(rs[1..], k - 1));
      r
  }

  /** `[i.replace(" ", "") for i in names]`. */
  function StripSpaces(names: seq<string>): (r: seq<string>)
    ensures |r| == |names|
    ensures forall i :: 0 <= i < |r| ==> ' ' !in r[i]
    ensures forall i :: 0 <= i < |r| ==> r[i] == Text.RemoveSpaces(names[i])
  {
    Text.MapWords(Text.RemoveSpaces, names)
  }

  /** `convert3` returns a prefix of what `convert` returns on the same
      column, and succeeds whenever `convert` does. */
  lemma Convert3IsPrefixOfConvert(rs: seq<Record>)
    requires Convert(rs).Ok?
    ensures Convert3(rs).Ok?
    ensures Convert3(rs).value == Convert(rs).value[..Min(3, |rs|)]
  {
  }

  /** `convert3` can succeed where `convert` fails: a fourth record without a
      name is never read. */
  lemma Convert3IgnoresTail()
    ensures var rs := [Record(Some("A"), None), Record(Some("B"), None),
                       Record(Some("C"), None), Record(None, None)];
            Convert3(rs) == Ok(["A", "B", "C"]) && Convert(rs).Err?
  {
    var rs := [Record(Some("A"), None), Record(Some("B"), None),
               Record(Some("C"), None), Record(None, None)];
    assert AllNamed(rs[..Min(3, |rs|)]);
    var r := Convert3(rs).value;
    assert |r| == 3 && r[0] == "A" && r[1] == "B" && r[2] == "C";
    assert r == ["A", "B", "C"];
    assert Convert3(rs) == Ok(r);
    assert !AllNamed(rs) by { assert rs[3].name.None?; }
  }

  /** A crew with no Director yields an empty list, not an error, provided
      every member has a job. */
  lemma NoDirectorIsEmpty(rs: seq<Record>)
    requires forall i :: 0 <= i < |rs| ==> rs[i].job.Some? && rs[i].job.value != Director
    ensures FetchDirector(rs) == Ok([])
  {
  }
}
