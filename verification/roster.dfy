/** The roster directory: employees, each naming at most one proxy. */
module Roster {
  import opened Wrappers
  import opened Seqs

  /** An employee; `proxyId` is the empty string when no proxy is set, which
      the source's truthiness tests treat like a missing value. */
  datatype Employee = Employee(id: string, name: string, proxyId: string)

  /** The ten employees the roster starts with, paired as each other's proxy. */
  const DefaultRoster: seq<Employee> := [
    Employee("A", "員工A", "B"), Employee("B", "員工B", "A"),
    Employee("C", "員工C", "D"), Employee("D", "員工D", "C"),
    Employee("E", "員工E", "F"), Employee("F", "員工F", "E"),
    Employee("G", "員工G", "H"), Employee("H", "員工H", "G"),
    Employee("I", "員工I", "J"), Employee("J", "員工J", "I")
  ]

  /** `getEmployeeById`: the first employee with the given id, if any. */
  function FindEmployee(roster: seq<Employee>, id: string): (r: Option<Employee>)
    ensures r.None? <==> forall i :: 0 <= i < |roster| ==> roster[i].id != id
    ensures r.Some? ==> r.value.id == id
    ensures r.Some? ==>
      exists i :: 0 <= i < |roster| && roster[i] == r.value && (forall j :: 0 <= j < i ==> roster[j].id != id)
  {
    var i := FindIndex(roster, (e: Employee) => e.id == id);
    if i < 0 then None else Some(roster[i])
  }

  /** `getEmployeeProxy`: the proxy id of a known employee (possibly the
      empty string), nothing for an unknown one. */
  function ProxyOf(roster: seq<Employee>, id: string): (r: Option<string>)
    ensures r.None? <==> forall i :: 0 <= i < |roster| ==> roster[i].id != id
    ensures r.Some? ==>
      exists i :: 0 <= i < |roster| && roster[i].id == id && roster[i].proxyId == r.value &&
        forall j :: 0 <= j < i ==> roster[j].id != id
  {
    match FindEmployee(roster, id)
    case None => None
    case Some(e) => Some(e.proxyId)
  }

  /** The proxy the conflict check works with: none when the employee is
      unknown or has an empty `proxyId`. */
  function ActiveProxy(roster: seq<Employee>, id: string): (r: Option<string>)
    ensures r.Some? ==> r.value != "" && ProxyOf(roster, id) == r
    ensures r.None? <==> ProxyOf(roster, id).None? || ProxyOf(roster, id) == Some("")
  {
    match ProxyOf(roster, id)
    case Some(p) => if p == "" then None else Some(p)
    case None => None
  }

  /** Ids are unique in the roster. */
  ghost predicate DistinctIds(roster: seq<Employee>) {
    forall i, j :: 0 <= i < j < |roster| ==> roster[i].id != roster[j].id
  }

  /** With unique ids, looking an employee up by id finds that employee. */
  lemma FindEmployeeOwnId(roster: seq<Employee>, i: int)
    requires DistinctIds(roster)
    requires 0 <= i < |roster|
    ensures FindEmployee(roster, roster[i].id) == Some(roster[i])
  {
  }

  /** The default ids are the single letters A to J, in order. */
  lemma DefaultRosterIds()
    ensures forall i :: 0 <= i < |DefaultRoster| ==>
      DefaultRoster[i].id == [(('A' as int) + i) as char]
  {
  }

  /** The default ids are pairwise distinct. */
  lemma DefaultRosterDistinct()
    ensures DistinctIds(DefaultRoster)
  {
    DefaultRosterIds();
    forall i, j | 0 <= i < j < |DefaultRoster|
      ensures DefaultRoster[i].id != DefaultRoster[j].id
    {
      assert DefaultRoster[i].id[0] != DefaultRoster[j].id[0];
    }
  }

  /** In the default roster nobody is their own proxy and proxies come in
      pairs: the proxy of one's proxy is oneself. */
  lemma DefaultRosterPairsProxies()
    ensures DistinctIds(DefaultRoster)
    ensures forall i :: 0 <= i < |DefaultRoster| ==>
      DefaultRoster[i].proxyId != DefaultRoster[i].id &&
      ProxyOf(DefaultRoster, DefaultRoster[i].proxyId) == Some(DefaultRoster[i].id)
  {
    DefaultRosterDistinct();
    forall i | 0 <= i < |DefaultRoster|
      ensures DefaultRoster[i].proxyId != DefaultRoster[i].id
      ensures ProxyOf(DefaultRoster, DefaultRoster[i].proxyId) == Some(DefaultRoster[i].id)
    {
      var j := if i % 2 == 0 then i + 1 else i - 1;
      assert DefaultRoster[i].proxyId == DefaultRoster[j].id;
      assert DefaultRoster[j].proxyId == DefaultRoster[i].id;
      FindEmployeeOwnId(DefaultRoster, j);
    }
  }
}
