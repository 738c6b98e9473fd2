/**
 * `ResultsStore`: the latest run status, the hosts list and the test
 * results list. Lists are objects shared by reference, as Python lists
 * are: the store keeps the caller's hosts list itself, and `clear` empties
 * the lists in place.
 */
module ResultsStore {
  import opened Wrappers
  import opened Json

  type Record = map<string, Value>

  /** A Python list: a mutable sequence that every holder of the reference sees change. */
  class PyList<T> {
    var items: seq<T>

    constructor (items: seq<T>)
      ensures this.items == items
    {
      this.items := items;
    }

    /** `list.clear()`. */
    method Clear()
      modifies this
      ensures items == []
    {
      items := [];
    }
  }

  const NoStatus: string := "No run status available"

  /** `run_status.get(key, 'Unknown')`, formatted. */
  function StatusField(status: Record, key: string): string
  {
    if key in status then Show(status[key]) else "Unknown"
  }

  /** The summary line of a status, or the fallback when there is none or it is empty. */
  function Summary(runStatus: Option<Record>): (r: string)
    ensures r == NoStatus <==> runStatus.None? || runStatus.value == map[]
    ensures runStatus.Some? && runStatus.value != map[] ==>
              r == "Run " + StatusField(runStatus.value, "Id") + " status: " + StatusField(runStatus.value, "State")
  {
    if runStatus.None? || runStatus.value == map[] then NoStatus
    else
      var r := "Run " + StatusField(runStatus.value, "Id") + " status: " + StatusField(runStatus.value, "State");
      assert r[1] != NoStatus[1];
      r
  }

  /** A status with the id and state as strings reads back as both. */
  lemma SummaryFields(id: string, state: string, rest: Record)
    ensures Summary(Some(rest["Id" := Str(id)]["State" := Str(state)])) == "Run " + id + " status: " + state
  {
    var m := rest["Id" := Str(id)]["State" := Str(state)];
    assert m["Id"] == Str(id) && m["State"] == Str(state);
    assert m != map[];
    assert StatusField(m, "Id") == id && StatusField(m, "State") == state;
  }

  /** A non-empty status without `Id` and `State` shows `Unknown` for both. */
  lemma SummaryUnknown(rest: Record)
    requires "Id" !in rest && "State" !in rest && rest != map[]
    ensures Summary(Some(rest)) == "Run Unknown status: Unknown"
  {
    assert StatusField(rest, "Id") == "Unknown" && StatusField(rest, "State") == "Unknown";
  }

  class ResultsStore {
    var runStatus: Option<Record>
    var hosts: PyList<Record>
    var testResults: PyList<Record>

    /** A store with no status and two fresh empty lists. */
    constructor ()
      ensures runStatus.None? && fresh(hosts) && fresh(testResults) && hosts != testResults
      ensures hosts.items == [] && testResults.items == []
    {
      runStatus := None;
      hosts := new PyList([]);
      testResults := new PyList([]);
    }

    /** `update_run_status`: replaces the status and nothing else. */
    method UpdateRunStatus(status: Record)
      modifies this
      ensures runStatus == Some(status)
      ensures hosts == old(hosts) && testResults == old(testResults)
    {
      runStatus := Some(status);
    }

    /** `update_hosts`: the store now holds the caller's list itself, not a copy. */
    method UpdateHosts(list: PyList<Record>)
      modifies this
      ensures hosts == list
      ensures runStatus == old(runStatus) && testResults == old(testResults)
    {
      hosts := list;
    }

    /** `get_run_status_summary`. */
    function GetRunStatusSummary(): string
      reads this
    {
      Summary(runStatus)
    }

    /** `clear`: drops the status and empties both lists in place. */
    method Clear()
      modifies this, hosts, testResults
      ensures runStatus.None?
      ensures hosts == old(hosts) && testResults == old(testResults)
      ensures hosts.items == [] && testResults.items == []
    {
      runStatus := None;
      hosts.Clear();
      testResults.Clear();
    }
  }

  /**
   * The list handed to `update_hosts` is the one `clear` empties: after a
   * clear the caller's own list is empty too.
   */
  method ClearEmptiesCallerList(store: ResultsStore, list: PyList<Record>)
    modifies store, list, store.testResults
    ensures list.items == []
    ensures store.hosts == list && store.runStatus.None?
    ensures store.GetRunStatusSummary() == NoStatus
  {
    store.UpdateHosts(list);
    store.Clear();
  }
}
