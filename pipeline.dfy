/**
  The end of the enumeration pipeline: `update_db` stores the records that
  `get_httpx_data` collected, with the open ports naabu found for each IP, and
  `maintest` chains the probe, the port scan and the update.

  `update_db` runs inside `with sqlite3.connect(...)`: the statements form one
  transaction that is committed when the block ends normally and rolled back
  when an exception leaves it. The only exception the modelled code can raise
  is `None.get(...)`, when the port scan failed and a record has an IP.
 */
module Pipeline {
  import opened Wrappers
  import opened Text
  import opened Order
  import opened Dict
  import opened Store
  import opened EnumTask
  import opened Httpx
  import opened Naabu

  /** How `update_db` ended. */
  datatype Status = NoProgram | Committed | RolledBack

  /** `x if x else None` for a string. */
  function NonEmpty(s: string): (r: Option<string>)
    ensures r.None? <==> s == ""
    ensures r.Some? ==> r.value == s
  {
    if s == "" then None else Some(s)
  }

  /** `str(x) if x else None` for a value that is `None` or a string. */
  function NonEmptyOpt(s: Option<string>): (r: Option<string>)
    ensures r.None? <==> s.None? || s.value == ""
    ensures r.Some? ==> s == r
  {
    if s.None? then None else NonEmpty(s.value)
  }

  /**
    The `open_port` column for a record with address `ip`: `None` (outer) when
    `naabu_results` is `None` and the address is not empty, which raises;
    otherwise the port list joined with `,`, NULL when there is none.
   */
  function OpenPorts(ip: string, naabu: Option<PortMap>): (r: Option<Option<string>>)
    ensures r.None? <==> ip != "" && naabu.None?
    ensures ip == "" ==> r == Some(None)
    ensures r.Some? && ip != "" ==> (r.value.None? <==> Ports(naabu.value, ip) == [])
    ensures r.Some? && r.value.Some? ==> r.value.value == PortsText(Ports(naabu.value, ip))
  {
    if ip == "" then Some(None)
    else if naabu.None? then None
    else Some(NonEmpty(PortsText(Ports(naabu.value, ip))))
  }

  /** The `domain_details` columns of a record: each falsy value is stored as NULL. */
  function DetailsOf(h: Host, openPort: Option<string>): (r: Details)
    ensures r.httpStatus.None? <==> h.httpStatus == ""
    ensures r.httpStatus.Some? ==> r.httpStatus.value == h.httpStatus
    ensures r.httpMethod.None? <==> h.httpMethod.None? || h.httpMethod.value == ""
    ensures r.httpMethod.Some? ==> r.httpMethod == h.httpMethod
    ensures r.title.None? <==> h.title == ""
    ensures r.title.Some? ==> r.title.value == h.title
    ensures r.ip.None? <==> h.ip == ""
    ensures r.ip.Some? ==> r.ip.value == h.ip
    ensures r.techno.None? <==> h.techList == []
    ensures r.techno.Some? ==> r.techno.value == Join(h.techList, ", ")
    ensures r.openPort == openPort
    ensures r.screen.None? <==> h.screen.None? || h.screen.value == ""
    ensures r.screen.Some? ==> r.screen == h.screen
    ensures r.phash.None? <==> h.phash.None? || h.phash.value == ""
    ensures r.phash.Some? ==> r.phash == h.phash
    ensures r.spfdmarc.None? <==> h.spfdmarc.None? || h.spfdmarc.value == ""
    ensures r.spfdmarc.Some? ==> r.spfdmarc == h.spfdmarc
  {
    var techno := if h.techList != [] then Some(Join(h.techList, ", ")) else None;
    Details(NonEmpty(h.httpStatus), NonEmptyOpt(h.httpMethod), NonEmpty(h.title), NonEmpty(h.ip),
            techno, openPort, NonEmptyOpt(h.screen), NonEmptyOpt(h.phash), NonEmptyOpt(h.spfdmarc))
  }

  // ---------------------------------------------------------------- one entry

  /** `r` is `t` with rows appended: programs untouched, old domains and details kept in place. */
  predicate Extends(t: Tables, r: Tables) {
    && r.programs == t.programs && r.programSeq == t.programSeq
    && |t.domains| <= |r.domains| && r.domains[..|t.domains|] == t.domains
    && |t.details| <= |r.details| && r.details[..|t.details|] == t.details
  }

  lemma ExtendsTransitive(t: Tables, u: Tables, r: Tables)
    requires Extends(t, u) && Extends(u, r)
    ensures Extends(t, r)
  {
    assert r.domains[..|t.domains|] == r.domains[..|u.domains|][..|t.domains|];
    assert r.details[..|t.details|] == r.details[..|u.details|][..|t.details|];
  }

  /**
    One iteration of the loop over `domain_data.items()`: skip an entry whose
    value is `None`; otherwise insert the host under the program unless its
    name exists, skip it when it belongs to another program, and else append
    its details. `None` is the exception raised when the scan failed.
   */
  function UpdateEntry(t: Tables, pid: nat, domain: string, data: Option<Host>, naabu: Option<PortMap>): (r: Option<Tables>)
    ensures r.Some? ==> Extends(t, r.value)
    ensures r.None? ==> naabu.None?
  {
    match data
    case None => Some(t)
    case Some(h) =>
      var t1 := InsertOrIgnoreDomain(t, pid, domain);
      assert t1.domains[..|t.domains|] == t.domains;
      match OwnedDomainIdOf(t1, pid, domain)
      case None => Some(t1)
      case Some(did) =>
        match OpenPorts(h.ip, naabu)
        case None => None
        case Some(openPort) =>
          var r := InsertDetail(t1, did, DetailsOf(h, openPort));
          assert r.details[..|t.details|] == t.details;
          Some(r)
  }

  /** The loop over the first entries; `None` once one of them raised. */
  function UpdateAll(t: Tables, pid: nat, es: seq<(string, Option<Host>)>, naabu: Option<PortMap>): (r: Option<Tables>)
    ensures r.Some? ==> Extends(t, r.value)
    ensures naabu.Some? ==> r.Some?
  {
    if es == [] then Some(t)
    else
      match UpdateAll(t, pid, es[..|es| - 1], naabu)
      case None => None
      case Some(u) =>
        var r := UpdateEntry(u, pid, es[|es| - 1].0, es[|es| - 1].1, naabu);
        assert r.Some? ==> Extends(t, r.value) by {
          if r.Some? { ExtendsTransitive(t, u, r.value); }
        }
        r
  }

  /**
    `update_db`: the tables afterwards and how it ended. Without the program
    nothing happens; an exception rolls the whole transaction back.
   */
  function UpdateDb(t: Tables, name: string, data: seq<(string, Option<Host>)>, naabu: Option<PortMap>): (r: (Tables, Status))
    ensures r.1 == NoProgram <==> forall i :: 0 <= i < |t.programs| ==> t.programs[i].name != name
    ensures r.1 != Committed ==> r.0 == t
    ensures r.1 == Committed ==> Extends(t, r.0)
    ensures naabu.Some? ==> r.1 != RolledBack
  {
    match ProgramIdOf(t, name)
    case None => (t, NoProgram)
    case Some(pid) =>
      match UpdateAll(t, pid, data, naabu)
      case None => (t, RolledBack)
      case Some(r) => (r, Committed)
  }

  // ---------------------------------------------------------------- what an update keeps

  /** One entry keeps the tables valid. */
  lemma UpdateEntryValid(t: Tables, pid: nat, domain: string, data: Option<Host>, naabu: Option<PortMap>)
    requires Valid(t) && IsProgramId(t, pid)
    ensures var r := UpdateEntry(t, pid, domain, data, naabu); r.Some? ==> Valid(r.value)
  {
    if data.Some? {
      var t1 := InsertOrIgnoreDomain(t, pid, domain);
      InsertDomainValid(t, pid, domain);
      match OwnedDomainIdOf(t1, pid, domain)
      case None =>
      case Some(did) =>
        match OpenPorts(data.value.ip, naabu)
        case None =>
        case Some(openPort) => InsertDetailValid(t1, did, DetailsOf(data.value, openPort));
    }
  }

  /** The whole loop keeps the tables valid. */
  lemma {:induction false} UpdateAllValid(t: Tables, pid: nat, es: seq<(string, Option<Host>)>, naabu: Option<PortMap>)
    requires Valid(t) && IsProgramId(t, pid)
    ensures var r := UpdateAll(t, pid, es, naabu); r.Some? ==> Valid(r.value)
  {
    if es != [] {
      UpdateAllValid(t, pid, es[..|es| - 1], naabu);
      match UpdateAll(t, pid, es[..|es| - 1], naabu)
      case None =>
      case Some(u) =>
        assert IsProgramId(u, pid);
        UpdateEntryValid(u, pid, es[|es| - 1].0, es[|es| - 1].1, naabu);
    }
  }

  /** `update_db` leaves valid tables valid, however it ends. */
  lemma UpdateDbValid(t: Tables, name: string, data: seq<(string, Option<Host>)>, naabu: Option<PortMap>)
    requires Valid(t)
    ensures Valid(UpdateDb(t, name, data, naabu).0)
  {
    match ProgramIdOf(t, name)
    case None =>
    case Some(pid) => UpdateAllValid(t, pid, data, naabu);
  }

  /**
    A host whose name is already stored under another program is skipped:
    `INSERT OR IGNORE` ignores it and the ownership check finds no row.
   */
  lemma ForeignHostSkipped(t: Tables, pid: nat, domain: string, h: Host, naabu: Option<PortMap>, i: nat)
    requires Valid(t) && i < |t.domains| && t.domains[i].name == domain && t.domains[i].programId != pid
    ensures UpdateEntry(t, pid, domain, Some(h), naabu) == Some(t)
  {
    assert DomainIdOf(t, domain).Some?;
    forall j | 0 <= j < |t.domains| && j != i ensures t.domains[j].name != domain {
      if j < i {
        assert DomainOrder(t.domains[j], t.domains[i]);
      } else {
        assert DomainOrder(t.domains[i], t.domains[j]);
      }
    }
  }

  /**
    A host not stored yet, with a successful scan, gets a new `domains` row
    under the program and a `domain_details` row referring to it.
   */
  lemma NewHostStored(t: Tables, pid: nat, domain: string, h: Host, ports: PortMap)
    requires Valid(t) && forall i :: 0 <= i < |t.domains| ==> t.domains[i].name != domain
    ensures var row := DomainRow(t.domainSeq + 1, pid, domain);
      var t1 := t.(domains := t.domains + [row], domainSeq := t.domainSeq + 1);
      UpdateEntry(t, pid, domain, Some(h), Some(ports)) == Some(InsertDetail(t1, t.domainSeq + 1, DetailsOf(h, OpenPorts(h.ip, Some(ports)).value)))
  {
    var row := DomainRow(t.domainSeq + 1, pid, domain);
    var t1 := InsertOrIgnoreDomain(t, pid, domain);
    assert t1.domains == t.domains + [row];
    forall x | x in t.domains ensures x.name != domain {
      var i :| 0 <= i < |t.domains| && t.domains[i] == x;
    }
    var rows := Filter(t1.domains, (d: DomainRow) => d.programId == pid && d.name == domain);
    assert row in rows;
    assert rows[0] in rows;
    assert OwnedDomainIdOf(t1, pid, domain) == Some(t.domainSeq + 1);
  }

  // ---------------------------------------------------------------- where the new rows come from

  /** The `domains` row `(did, pid, name)` is present. */
  predicate OwnedBy(r: Tables, did: nat, pid: nat, name: string) {
    exists i :: 0 <= i < |r.domains| && r.domains[i] == DomainRow(did, pid, name)
  }

  /** `row` holds the details of the live entry `e`, for a host of the program stored in `r`. */
  predicate RowFrom(r: Tables, row: DetailRow, pid: nat, e: (string, Option<Host>), naabu: Option<PortMap>) {
    && e.1.Some? && OpenPorts(e.1.value.ip, naabu).Some?
    && row.details == DetailsOf(e.1.value, OpenPorts(e.1.value.ip, naabu).value)
    && row.com == None
    && OwnedBy(r, row.domainId, pid, e.0)
  }

  lemma OwnedByExtends(u: Tables, r: Tables, did: nat, pid: nat, name: string)
    requires Extends(u, r) && OwnedBy(u, did, pid, name)
    ensures OwnedBy(r, did, pid, name)
  {
    var i :| 0 <= i < |u.domains| && u.domains[i] == DomainRow(did, pid, name);
    assert r.domains[i] == r.domains[..|u.domains|][i];
  }

  /**
    Every `domain_details` row an update appends holds the details of one
    entry whose value is not `None`, and refers to that entry's host stored
    under the program.
   */
  lemma {:induction false} UpdateAllRows(t: Tables, pid: nat, es: seq<(string, Option<Host>)>, naabu: Option<PortMap>)
    ensures var r := UpdateAll(t, pid, es, naabu);
      r.Some? ==> forall j :: |t.details| <= j < |r.value.details| ==>
        exists k :: 0 <= k < |es| && RowFrom(r.value, r.value.details[j], pid, es[k], naabu)
  {
    if es != [] {
      var init := es[..|es| - 1];
      var e := es[|es| - 1];
      UpdateAllRows(t, pid, init, naabu);
      match UpdateAll(t, pid, init, naabu)
      case None =>
      case Some(u) =>
        match UpdateEntry(u, pid, e.0, e.1, naabu)
        case None =>
        case Some(r) =>
          forall j | |t.details| <= j < |r.details|
            ensures exists k :: 0 <= k < |es| && RowFrom(r, r.details[j], pid, es[k], naabu)
          {
            if j < |u.details| {
              var k :| 0 <= k < |init| && RowFrom(u, u.details[j], pid, init[k], naabu);
              assert r.details[j] == r.details[..|u.details|][j] == u.details[j];
              OwnedByExtends(u, r, u.details[j].domainId, pid, init[k].0);
              assert es[k] == init[k];
              assert RowFrom(r, r.details[j], pid, es[k], naabu);
            } else {
              NewRowFrom(u, pid, e, naabu, r, j);
              assert RowFrom(r, r.details[j], pid, es[|es| - 1], naabu);
            }
          }
    }
  }

  /** The row one entry appends, if any, holds that entry's details. */
  lemma NewRowFrom(u: Tables, pid: nat, e: (string, Option<Host>), naabu: Option<PortMap>, r: Tables, j: nat)
    requires UpdateEntry(u, pid, e.0, e.1, naabu) == Some(r) && |u.details| <= j < |r.details|
    ensures RowFrom(r, r.details[j], pid, e, naabu)
  {
    var h := e.1.value;
    var t1 := InsertOrIgnoreDomain(u, pid, e.0);
    var did := OwnedDomainIdOf(t1, pid, e.0).value;
    assert r == InsertDetail(t1, did, DetailsOf(h, OpenPorts(h.ip, naabu).value));
    assert r.details[j] == DetailRow(t1.detailSeq + 1, did, DetailsOf(h, OpenPorts(h.ip, naabu).value), None);
  }

  /** Entries whose values are all `None` change nothing. */
  lemma {:induction false} DeadEntriesChangeNothing(t: Tables, pid: nat, es: seq<(string, Option<Host>)>, naabu: Option<PortMap>)
    requires forall k :: 0 <= k < |es| ==> es[k].1.None?
    ensures UpdateAll(t, pid, es, naabu) == Some(t)
  {
    if es != [] {
      DeadEntriesChangeNothing(t, pid, es[..|es| - 1], naabu);
    }
  }

  // ---------------------------------------------------------------- the statements, in order

  /** One more entry, as `UpdateAll` reads it. */
  lemma UpdateAllStep(t: Tables, pid: nat, es: seq<(string, Option<Host>)>, naabu: Option<PortMap>, i: nat)
    requires i < |es|
    ensures UpdateAll(t, pid, es[..i + 1], naabu) == match UpdateAll(t, pid, es[..i], naabu)
      case None => None
      case Some(u) => UpdateEntry(u, pid, es[i].0, es[i].1, naabu)
  {
    assert es[..i + 1][..i] == es[..i];
  }

  /** Once an entry has raised, the loop as a whole has raised. */
  lemma {:induction false} UpdateAllRaised(t: Tables, pid: nat, es: seq<(string, Option<Host>)>, naabu: Option<PortMap>, i: nat)
    requires i <= |es| && UpdateAll(t, pid, es[..i], naabu).None?
    ensures UpdateAll(t, pid, es, naabu).None?
    decreases |es| - i
  {
    if i < |es| {
      UpdateAllStep(t, pid, es, naabu, i);
      UpdateAllRaised(t, pid, es, naabu, i + 1);
    } else {
      assert es[..i] == es;
    }
  }

  /**
    `update_db` on the open database: look the program up, run the statements
    of each entry, and roll the transaction back if the port lookup raises.
   */
  method UpdateDbExec(db: Database, name: string, data: seq<(string, Option<Host>)>, naabu: Option<PortMap>) returns (status: Status)
    modifies db
    ensures (db.State(), status) == UpdateDb(old(db.State()), name, data, naabu)
  {
    var programId := ProgramIdOf(db.State(), name);
    if programId.None? {
      return NoProgram;
    }
    var ok := UpdateAllExec(db, programId.value, data, naabu);
    status := if ok then Committed else RolledBack;
  }

  /** The loop over the entries, rolled back to where it began if one of them raises. */
  method UpdateAllExec(db: Database, pid: nat, data: seq<(string, Option<Host>)>, naabu: Option<PortMap>) returns (ok: bool)
    modifies db
    ensures ok <==> UpdateAll(old(db.State()), pid, data, naabu).Some?
    ensures db.State() == if ok then UpdateAll(old(db.State()), pid, data, naabu).value else old(db.State())
  {
    var snapshot := db.State();
    for i := 0 to |data|
      invariant UpdateAll(snapshot, pid, data[..i], naabu) == Some(db.State())
    {
      UpdateAllStep(snapshot, pid, data, naabu, i);
      var entryOk := UpdateEntryExec(db, pid, data[i].0, data[i].1, naabu);
      if !entryOk {
        db.Rollback(snapshot);
        UpdateAllRaised(snapshot, pid, data, naabu, i + 1);
        return false;
      }
    }
    assert data[..|data|] == data;
    ok := true;
  }

  /**
    The statements of one entry. `ok` is false when the port lookup raised,
    after the domain insert and the ownership check ran.
   */
  method UpdateEntryExec(db: Database, pid: nat, domain: string, data: Option<Host>, naabu: Option<PortMap>) returns (ok: bool)
    modifies db
    ensures ok <==> UpdateEntry(old(db.State()), pid, domain, data, naabu).Some?
    ensures ok ==> UpdateEntry(old(db.State()), pid, domain, data, naabu) == Some(db.State())
    ensures !ok ==> db.State() == InsertOrIgnoreDomain(old(db.State()), pid, domain)
  {
    if data.None? {
      return true;
    }
    var h := data.value;
    db.ExecInsertOrIgnoreDomain(pid, domain);
    var result := OwnedDomainIdOf(db.State(), pid, domain);
    if result.None? {
      return true;
    }
    var domainId := result.value;
    if h.ip != "" && naabu.None? {
      return false;
    }
    var openPorts := if h.ip != "" then NonEmpty(PortsText(Ports(naabu.value, h.ip))) else None;
    db.ExecInsertDetail(domainId, DetailsOf(h, openPorts));
    ok := true;
  }

  // ---------------------------------------------------------------- maintest

  /** What `get_httpx_data` returns, as its two cases state. */
  function HttpxData(domains: seq<string>, stdout: string, run: Runner, shoot: Shooter, phash: Phasher): seq<(string, Option<Host>)> {
    if Strip(stdout) == "" then FromKeys(domains, None)
    else Merge(Matches(Split(stdout, "\n")), Probes(MethodsMap(domains, run), SpfDmarcMap(domains, run), ScreenshotMap(domains, shoot)), phash)
  }

  /** `set(entry["ip"] for entry in end.values() if entry and entry["ip"])`. */
  function LiveIps(end: seq<(string, Option<Host>)>): set<string> {
    set k | 0 <= k < |end| && end[k].1.Some? && end[k].1.value.ip != "" :: end[k].1.value.ip
  }

  /**
    `maintest`: probe the hosts, scan the distinct non-empty IPs of the live
    records, and store everything under the program.
   */
  method MainTest(db: Database, domains: seq<string>, programName: string, stdout: string,
                  run: Runner, shoot: Shooter, phash: Phasher, scan: Scanner) returns (status: Status)
    modifies db
    ensures var end := HttpxData(domains, stdout, run, shoot, phash);
      (db.State(), status) == UpdateDb(old(db.State()), programName, end, ScanResult(scan(IpsFile(SortSet(LiveIps(end))))))
  {
    var end := GetHttpxData(domains, stdout, run, shoot, phash);
    assert end == HttpxData(domains, stdout, run, shoot, phash);
    var allIps := SortSet(LiveIps(end));
    var naabu := ScanNaabu(allIps, scan);
    status := UpdateDbExec(db, programName, end, naabu);
  }

  /** When httpx prints nothing, `maintest` stores nothing and cannot roll back, whatever naabu does. */
  lemma BlankProbeStoresNothing(t: Tables, domains: seq<string>, name: string, stdout: string,
                                run: Runner, shoot: Shooter, phash: Phasher, naabu: Option<PortMap>)
    requires Strip(stdout) == ""
    ensures var r := UpdateDb(t, name, HttpxData(domains, stdout, run, shoot, phash), naabu);
      r.0 == t && r.1 != RolledBack
  {
    var none: Option<Host> := None;
    FromKeysValues(domains, none);
    match ProgramIdOf(t, name)
    case None =>
    case Some(pid) => DeadEntriesChangeNothing(t, pid, FromKeys(domains, None), naabu);
  }

  /** The addresses written to `ips.txt`: each non-empty IP of a live record once, in ascending order. */
  lemma ScannedIps(end: seq<(string, Option<Host>)>)
    ensures var ips := SortSet(LiveIps(end));
      StrictlyAscending(ips) &&
      forall ip :: ip in ips <==> exists k :: 0 <= k < |end| && end[k].1.Some? && end[k].1.value.ip == ip && ip != ""
  {
    var ips := SortSet(LiveIps(end));
    forall ip | ip in ips ensures exists k :: 0 <= k < |end| && end[k].1.Some? && end[k].1.value.ip == ip && ip != "" {
      var k :| 0 <= k < |end| && end[k].1.Some? && end[k].1.value.ip != "" && end[k].1.value.ip == ip;
    }
  }
}
