/** Discovery of the master and slave inverters from `data.parallel`
    (`_get_serial_numbers`). */
module Topology {
  import opened Wrappers
  import opened Json

  /** What discovery leaves behind: nothing when `parallel` is empty, otherwise
      the number of entries and the serials and reports of the two roles. */
  datatype Topology =
    | NoParallel
    | Parallel(count: nat, masterSn: string, slaveSn: string, masterData: JValue, slaveData: JValue)

  /** `response["data"]["parallel"]`, when both lookups succeed. */
  function ParallelOf(response: JValue): Option<JValue> {
    match Get(response, "data")
    case Failure(_) => None
    case Success(data) =>
      match Get(data, "parallel")
      case Failure(_) => None
      case Success(p) => Some(p)
  }

  /** The shapes of `parallel` discovery accepts: anything of length 0, or a
      dict whose every entry is itself a dict. */
  ghost predicate AcceptedParallel(p: JValue) {
    Len(p) == Success(0) || (p.JObj? && forall i :: 0 <= i < |p.fields| ==> p.fields[i].1.JObj?)
  }

  /** Reads `parallel`: length 0 gives no topology; otherwise the first key is
      the slave and the last the master, each with its own report, and the
      count is the number of entries. Every entry must be a dict. */
  function SerialNumbers(response: JValue): (r: Result<Topology, Error>)
    ensures r.Success? <==> ParallelOf(response).Some? && AcceptedParallel(ParallelOf(response).value)
    ensures r == Success(NoParallel) <==>
      ParallelOf(response).Some? && Len(ParallelOf(response).value) == Success(0)
    ensures r.Success? && r.value.Parallel? ==>
      var f := ParallelOf(response).value.fields;
      && r.value.count == |f| > 0
      && r.value.slaveSn == f[0].0
      && r.value.masterSn == f[|f| - 1].0
      && r.value.masterData == Lookup(f, r.value.masterSn).value
      && r.value.slaveData == Lookup(f, r.value.slaveSn).value
      && r.value.masterData.JObj? && r.value.slaveData.JObj?
  {
    var data :- Get(response, "data");
    var p :- Get(data, "parallel");
    var n :- Len(p);
    if n == 0 then Success(NoParallel)
    else
      var fields :- Items(p);
      if exists i :: 0 <= i < |fields| && !fields[i].1.JObj? then Failure(AttributeError)
      else
        var slave := fields[0].0;
        var master := fields[|fields| - 1].0;
        Success(Parallel(n, master, slave, Lookup(fields, master).value, Lookup(fields, slave).value))
  }

  /** With exactly two distinct inverters the roles go to different serials,
      both taken from `parallel`, and each role gets its own entry's report. */
  lemma TwoInverters(response: JValue, p: Fields)
    requires ParallelOf(response) == Some(JObj(p))
    requires |p| == 2 && DistinctKeys(p)
    requires p[0].1.JObj? && p[1].1.JObj?
    ensures SerialNumbers(response) == Success(Parallel(2, p[1].0, p[0].0, p[1].1, p[0].1))
    ensures p[1].0 != p[0].0
  {
    assert forall i :: 0 <= i < |p| ==> p[i].1.JObj?;
    LookupDistinct(p, 0);
    LookupDistinct(p, 1);
  }
}
