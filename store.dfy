/**
  The SQLite database `database.db` that both shells and the enumeration
  pipeline share: the tables `programs`, `domains` and `domain_details`, the
  statements the modelled code runs against them, and a `Database` object
  whose methods execute those statements in place.

  Rows are kept in rowid order. `AUTOINCREMENT` ids come from a per-table
  counter (SQLite's `sqlite_sequence`) and are never reused. No connection
  turns on `PRAGMA foreign_keys`, so the `ON DELETE CASCADE` clauses never
  fire: deleting a program or a domain leaves the rows that refer to it.
 */
module Store {
  import opened Wrappers
  import opened Text

  /** A `programs` row: `program_name` is UNIQUE; `url` is the column `add_url` reads and writes. */
  datatype ProgramRow = ProgramRow(id: nat, name: string, com: Option<string>, url: Option<string>)

  /** A `domains` row: `domain_name` is UNIQUE across all programs. */
  datatype DomainRow = DomainRow(id: nat, programId: nat, name: string)

  /** The columns of `domain_details` that the enumeration pipeline fills; `None` is SQL NULL. */
  datatype Details = Details(
    httpStatus: Option<string>,
    httpMethod: Option<string>,
    title: Option<string>,
    ip: Option<string>,
    techno: Option<string>,
    openPort: Option<string>,
    screen: Option<string>,
    phash: Option<string>,
    spfdmarc: Option<string>)

  datatype DetailRow = DetailRow(id: nat, domainId: nat, details: Details, com: Option<string>)

  /** The three tables and their `sqlite_sequence` counters (the last id handed out). */
  datatype Tables = Tables(
    programs: seq<ProgramRow>,
    domains: seq<DomainRow>,
    details: seq<DetailRow>,
    programSeq: nat,
    domainSeq: nat,
    detailSeq: nat)

  function Empty(): Tables {
    Tables([], [], [], 0, 0, 0)
  }

  predicate ProgramOrder(a: ProgramRow, b: ProgramRow) {
    a.id < b.id && a.name != b.name
  }

  predicate DomainOrder(a: DomainRow, b: DomainRow) {
    a.id < b.id && a.name != b.name
  }

  predicate DetailOrder(a: DetailRow, b: DetailRow) {
    a.id < b.id
  }

  /** `R` holds between every row and every later row. */
  predicate Pairwise<T>(s: seq<T>, R: (T, T) -> bool) {
    forall i, j :: 0 <= i < j < |s| ==> R(s[i], s[j])
  }

  predicate IsProgramId(t: Tables, pid: nat) {
    exists i :: 0 <= i < |t.programs| && t.programs[i].id == pid
  }

  /**
    What the schema and the statements keep true: ids ascend in rowid order and
    never exceed their counter, program names and domain names are UNIQUE, and
    every domain belongs to a program that exists. Details may refer to a
    deleted domain.
   */
  predicate Valid(t: Tables) {
    && Pairwise(t.programs, ProgramOrder)
    && Pairwise(t.domains, DomainOrder)
    && Pairwise(t.details, DetailOrder)
    && (forall i :: 0 <= i < |t.programs| ==> 0 < t.programs[i].id <= t.programSeq)
    && (forall i :: 0 <= i < |t.domains| ==> 0 < t.domains[i].id <= t.domainSeq)
    && (forall i :: 0 <= i < |t.details| ==> 0 < t.details[i].id <= t.detailSeq)
    && (forall i :: 0 <= i < |t.domains| ==> IsProgramId(t, t.domains[i].programId))
  }

  lemma EmptyValid()
    ensures Valid(Empty())
  {
  }

  // ---------------------------------------------------------------- filtering

  /** The rows of `s` that satisfy `p`, in their order (a `DELETE … WHERE not p`). */
  function Filter<T(!new)>(s: seq<T>, p: T -> bool): (r: seq<T>)
    ensures |r| <= |s|
    ensures forall x :: x in r <==> x in s && p(x)
  {
    if s == [] then []
    else if p(s[0]) then [s[0]] + Filter(s[1..], p)
    else Filter(s[1..], p)
  }

  /** Filtering keeps the order of the rows: it distributes over concatenation. */
  lemma {:induction false} FilterAppend<T(!new)>(a: seq<T>, b: seq<T>, p: T -> bool)
    ensures Filter(a + b, p) == Filter(a, p) + Filter(b, p)
  {
    if a == [] {
      assert a + b == b;
    } else {
      assert (a + b)[0] == a[0];
      assert (a + b)[1..] == a[1..] + b;
      FilterAppend(a[1..], b, p);
    }
  }

  /** Deleting rows keeps every pairwise relation among the rows that stay. */
  lemma {:induction false} FilterPairwise<T(!new)>(s: seq<T>, p: T -> bool, R: (T, T) -> bool)
    requires Pairwise(s, R)
    ensures Pairwise(Filter(s, p), R)
  {
    if s != [] {
      assert Pairwise(s[1..], R);
      FilterPairwise(s[1..], p, R);
      if p(s[0]) {
        var r := [s[0]] + Filter(s[1..], p);
        forall j | 0 < j < |r| ensures R(r[0], r[j]) {
          assert r[j] in s[1..];
          var k :| 0 <= k < |s[1..]| && s[1..][k] == r[j];
          assert s[k + 1] == r[j];
        }
      }
    }
  }

  // ---------------------------------------------------------------- selects

  /** `SELECT id FROM programs WHERE program_name = ?`, first row. */
  function ProgramIdOf(t: Tables, name: string): (r: Option<nat>)
    ensures r.Some? ==> exists i :: 0 <= i < |t.programs| && t.programs[i].name == name && t.programs[i].id == r.value
    ensures r.None? <==> forall i :: 0 <= i < |t.programs| ==> t.programs[i].name != name
  {
    FirstProgram(t.programs, name)
  }

  function FirstProgram(ps: seq<ProgramRow>, name: string): (r: Option<nat>)
    ensures r.Some? ==> exists i :: 0 <= i < |ps| && ps[i].name == name && ps[i].id == r.value
    ensures r.None? <==> forall i :: 0 <= i < |ps| ==> ps[i].name != name
  {
    if ps == [] then None
    else if ps[0].name == name then Some(ps[0].id)
    else
      var r := FirstProgram(ps[1..], name);
      assert r.Some? ==> exists i :: 0 <= i < |ps| && ps[i].name == name && ps[i].id == r.value by {
        if r.Some? {
          var i :| 0 <= i < |ps[1..]| && ps[1..][i].name == name && ps[1..][i].id == r.value;
          assert ps[i + 1] == ps[1..][i];
        }
      }
      r
  }

  /** `SELECT url FROM programs WHERE program_name = ?`, first row: `None` when there is no row. */
  function ProgramUrlOf(t: Tables, name: string): (r: Option<Option<string>>)
    ensures r.None? <==> ProgramIdOf(t, name).None?
    ensures r.Some? ==> exists i :: 0 <= i < |t.programs| && t.programs[i].name == name && t.programs[i].url == r.value
  {
    FirstUrl(t.programs, name)
  }

  function FirstUrl(ps: seq<ProgramRow>, name: string): (r: Option<Option<string>>)
    ensures r.None? <==> forall i :: 0 <= i < |ps| ==> ps[i].name != name
    ensures r.Some? ==> exists i :: 0 <= i < |ps| && ps[i].name == name && ps[i].url == r.value
  {
    if ps == [] then None
    else if ps[0].name == name then Some(ps[0].url)
    else
      var r := FirstUrl(ps[1..], name);
      assert r.Some? ==> exists i :: 0 <= i < |ps| && ps[i].name == name && ps[i].url == r.value by {
        if r.Some? {
          var i :| 0 <= i < |ps[1..]| && ps[1..][i].name == name && ps[1..][i].url == r.value;
          assert ps[i + 1] == ps[1..][i];
        }
      }
      r
  }

  /** The domain rows named `name` (at most one while the tables are valid). */
  function DomainsNamed(t: Tables, name: string): seq<DomainRow> {
    Filter(t.domains, (d: DomainRow) => d.name == name)
  }

  /** `SELECT id FROM domains WHERE domain_name = ?`, first row. */
  function DomainIdOf(t: Tables, name: string): (r: Option<nat>)
    ensures r.Some? ==> DomainRowIn(t, r.value, name)
    ensures r.None? <==> forall i :: 0 <= i < |t.domains| ==> t.domains[i].name != name
  {
    var rows := DomainsNamed(t, name);
    if rows == [] then
      assert forall i :: 0 <= i < |t.domains| ==> t.domains[i].name != name by {
        forall i | 0 <= i < |t.domains| ensures t.domains[i].name != name {
          assert t.domains[i] in t.domains;
        }
      }
      None
    else
      assert rows[0] in t.domains;
      Some(rows[0].id)
  }

  predicate DomainRowIn(t: Tables, id: nat, name: string) {
    exists i :: 0 <= i < |t.domains| && t.domains[i].id == id && t.domains[i].name == name
  }

  /** `SELECT id FROM domains WHERE program_id = ? AND domain_name = ?`, first row. */
  function OwnedDomainIdOf(t: Tables, pid: nat, name: string): (r: Option<nat>)
    ensures r.Some? ==> exists i :: 0 <= i < |t.domains| && t.domains[i] == DomainRow(r.value, pid, name)
    ensures r.None? <==> forall i :: 0 <= i < |t.domains| ==> t.domains[i].programId != pid || t.domains[i].name != name
  {
    var rows := Filter(t.domains, (d: DomainRow) => d.programId == pid && d.name == name);
    if rows == [] then
      assert forall i :: 0 <= i < |t.domains| ==> t.domains[i].programId != pid || t.domains[i].name != name by {
        forall i | 0 <= i < |t.domains| ensures t.domains[i].programId != pid || t.domains[i].name != name {
          assert t.domains[i] in t.domains;
        }
      }
      None
    else
      assert rows[0] in t.domains;
      Some(rows[0].id)
  }

  // ---------------------------------------------------------------- statements

  /** `INSERT INTO programs (program_name) VALUES (?)` for a name not yet present. */
  function InsertProgram(t: Tables, name: string): (r: Tables)
    ensures r.programs == t.programs + [ProgramRow(t.programSeq + 1, name, None, None)]
    ensures r.programSeq == t.programSeq + 1
    ensures r.domains == t.domains && r.details == t.details
  {
    t.(programs := t.programs + [ProgramRow(t.programSeq + 1, name, None, None)], programSeq := t.programSeq + 1)
  }

  /** `INSERT OR IGNORE INTO programs (program_name) VALUES (?)`: the UNIQUE name makes a repeat a no-op. */
  function InsertOrIgnoreProgram(t: Tables, name: string): Tables {
    if ProgramIdOf(t, name).Some? then t else InsertProgram(t, name)
  }

  /** `DELETE FROM domains WHERE program_id = ?` */
  function DeleteDomainsOfProgram(t: Tables, pid: nat): Tables {
    t.(domains := Filter(t.domains, (d: DomainRow) => d.programId != pid))
  }

  /** `DELETE FROM programs WHERE id = ?` */
  function DeleteProgram(t: Tables, pid: nat): Tables {
    t.(programs := Filter(t.programs, (p: ProgramRow) => p.id != pid))
  }

  /** `DELETE FROM domains WHERE id = ?` */
  function DeleteDomain(t: Tables, did: nat): Tables {
    t.(domains := Filter(t.domains, (d: DomainRow) => d.id != did))
  }

  /** The rows found by `SELECT … FROM domains WHERE domain_name LIKE ?` deleted by id. */
  function DeleteDomainsLike(t: Tables, pattern: string): Tables {
    t.(domains := Filter(t.domains, (d: DomainRow) => !Like(d.name, pattern)))
  }

  /** `UPDATE programs SET com = ? WHERE id = ?` */
  function SetProgramCom(t: Tables, pid: nat, com: string): (r: Tables)
    ensures r.domains == t.domains && r.details == t.details && r.programSeq == t.programSeq
    ensures |r.programs| == |t.programs|
    ensures forall i :: 0 <= i < |t.programs| ==> r.programs[i].(com := t.programs[i].com) == t.programs[i]
    ensures forall i :: 0 <= i < |t.programs| ==> r.programs[i].com == if t.programs[i].id == pid then Some(com) else t.programs[i].com
  {
    t.(programs := seq(|t.programs|, i requires 0 <= i < |t.programs| =>
      if t.programs[i].id == pid then t.programs[i].(com := Some(com)) else t.programs[i]))
  }

  /** `UPDATE programs SET url = ? WHERE program_name = ?` */
  function SetProgramUrl(t: Tables, name: string, url: string): (r: Tables)
    ensures r.domains == t.domains && r.details == t.details && r.programSeq == t.programSeq
    ensures |r.programs| == |t.programs|
    ensures forall i :: 0 <= i < |t.programs| ==> r.programs[i].(url := t.programs[i].url) == t.programs[i]
    ensures forall i :: 0 <= i < |t.programs| ==> r.programs[i].url == if t.programs[i].name == name then Some(url) else t.programs[i].url
  {
    t.(programs := seq(|t.programs|, i requires 0 <= i < |t.programs| =>
      if t.programs[i].name == name then t.programs[i].(url := Some(url)) else t.programs[i]))
  }

  /** `UPDATE domain_details SET com = ? WHERE domain_id = ?` */
  function SetDetailsCom(t: Tables, did: nat, com: string): (r: Tables)
    ensures r.programs == t.programs && r.domains == t.domains && r.detailSeq == t.detailSeq
    ensures |r.details| == |t.details|
    ensures forall i :: 0 <= i < |t.details| ==> r.details[i].(com := t.details[i].com) == t.details[i]
    ensures forall i :: 0 <= i < |t.details| ==> r.details[i].com == if t.details[i].domainId == did then Some(com) else t.details[i].com
  {
    t.(details := seq(|t.details|, i requires 0 <= i < |t.details| =>
      if t.details[i].domainId == did then t.details[i].(com := Some(com)) else t.details[i]))
  }

  /** `INSERT OR IGNORE INTO domains (program_id, domain_name) VALUES (?, ?)`: ignored when the name exists under any program. */
  function InsertOrIgnoreDomain(t: Tables, pid: nat, name: string): Tables {
    if DomainIdOf(t, name).Some? then t
    else t.(domains := t.domains + [DomainRow(t.domainSeq + 1, pid, name)], domainSeq := t.domainSeq + 1)
  }

  /** `INSERT INTO domain_details (domain_id, …) VALUES (?, …)`; `com` starts NULL. */
  function InsertDetail(t: Tables, did: nat, details: Details): Tables {
    t.(details := t.details + [DetailRow(t.detailSeq + 1, did, details, None)], detailSeq := t.detailSeq + 1)
  }

  // ---------------------------------------------------------------- LIKE

  /**
    SQLite's `s LIKE pattern` without an ESCAPE clause: `%` matches any run of
    characters, `_` any one character, and other characters match ignoring
    ASCII case.
   */
  predicate Like(s: string, pattern: string)
    decreases |s| + |pattern|
  {
    if pattern == [] then s == []
    else if pattern[0] == '%' then Like(s, pattern[1..]) || (s != [] && Like(s[1..], pattern))
    else s != [] && (pattern[0] == '_' || LowerChar(s[0]) == LowerChar(pattern[0])) && Like(s[1..], pattern[1..])
  }

  predicate Literal(q: string) {
    '%' !in q && '_' !in q
  }

  /** A pattern without wildcards matches the strings equal to it up to ASCII case. */
  lemma {:induction false} LikeLiteral(s: string, q: string)
    requires Literal(q)
    ensures Like(s, q) <==> Lower(s) == Lower(q)
  {
    if q != [] && s != [] {
      LikeLiteral(s[1..], q[1..]);
      assert Lower(s) == [LowerChar(s[0])] + Lower(s[1..]);
      assert Lower(q) == [LowerChar(q[0])] + Lower(q[1..]);
    }
  }

  /** `LIKE '%' || q` for a literal `q` is an ASCII-case-insensitive "ends with". */
  lemma {:induction false} LikeSuffix(s: string, q: string)
    requires Literal(q)
    ensures Like(s, "%" + q) <==> EndsWith(Lower(s), Lower(q))
  {
    var pat := "%" + q;
    assert pat[1..] == q;
    LikeLiteral(s, q);
    if s != [] {
      LikeSuffix(s[1..], q);
      assert Lower(s)[1..] == Lower(s[1..]);
      if |s| > |q| {
        assert Lower(s)[|s| - |q|..] == Lower(s[1..])[|s[1..]| - |q|..];
      }
    }
  }

  // ---------------------------------------------------------------- invariants

  /** A name inserted with `INSERT OR IGNORE` is present afterwards, and a repeat changes nothing. */
  lemma InsertOrIgnoreProgramValid(t: Tables, name: string)
    requires Valid(t)
    ensures var r := InsertOrIgnoreProgram(t, name);
      Valid(r) && ProgramIdOf(r, name).Some? && InsertOrIgnoreProgram(r, name) == r
  {
    var r := InsertOrIgnoreProgram(t, name);
    if ProgramIdOf(t, name).None? {
      assert r.programs[|t.programs|].name == name;
      forall i | 0 <= i < |r.domains| ensures IsProgramId(r, r.domains[i].programId) {
        var k :| 0 <= k < |t.programs| && t.programs[k].id == t.domains[i].programId;
        assert r.programs[k] == t.programs[k];
      }
    }
  }

  /** `rm program`'s two deletes keep the tables valid. */
  lemma DeleteProgramValid(t: Tables, pid: nat)
    requires Valid(t)
    ensures Valid(DeleteProgram(DeleteDomainsOfProgram(t, pid), pid))
  {
    var t1 := DeleteDomainsOfProgram(t, pid);
    var r := DeleteProgram(t1, pid);
    FilterPairwise(t.domains, (d: DomainRow) => d.programId != pid, DomainOrder);
    FilterPairwise(t.programs, (p: ProgramRow) => p.id != pid, ProgramOrder);
    forall i | 0 <= i < |r.programs| ensures 0 < r.programs[i].id <= r.programSeq {
      assert r.programs[i] in t.programs;
    }
    forall i | 0 <= i < |r.domains| ensures 0 < r.domains[i].id <= r.domainSeq && IsProgramId(r, r.domains[i].programId) {
      var d := r.domains[i];
      assert d in t.domains;
      var j :| 0 <= j < |t.domains| && t.domains[j] == d;
      var k :| 0 <= k < |t.programs| && t.programs[k].id == d.programId;
      assert t.programs[k] in r.programs;
    }
  }

  /** Deleting domains, one or several, keeps the tables valid. */
  lemma DeleteDomainsValid(t: Tables, p: DomainRow -> bool)
    requires Valid(t)
    ensures Valid(t.(domains := Filter(t.domains, p)))
  {
    var r := t.(domains := Filter(t.domains, p));
    FilterPairwise(t.domains, p, DomainOrder);
    forall i | 0 <= i < |r.domains| ensures 0 < r.domains[i].id <= r.domainSeq && IsProgramId(r, r.domains[i].programId) {
      var d := r.domains[i];
      assert d in t.domains;
      var j :| 0 <= j < |t.domains| && t.domains[j] == d;
    }
  }

  /** Updating a comment or a url touches no id and no name. */
  lemma ProgramComValid(t: Tables, pid: nat, com: string)
    requires Valid(t)
    ensures Valid(SetProgramCom(t, pid, com))
  {
    var r := SetProgramCom(t, pid, com);
    assert forall i :: 0 <= i < |t.programs| ==> r.programs[i].id == t.programs[i].id && r.programs[i].name == t.programs[i].name;
    forall i | 0 <= i < |t.domains| ensures IsProgramId(r, t.domains[i].programId) {
      var k :| 0 <= k < |t.programs| && t.programs[k].id == t.domains[i].programId;
      assert r.programs[k].id == t.programs[k].id;
    }
  }

  lemma ProgramUrlValid(t: Tables, name: string, url: string)
    requires Valid(t)
    ensures Valid(SetProgramUrl(t, name, url))
  {
    var r := SetProgramUrl(t, name, url);
    assert forall i :: 0 <= i < |t.programs| ==> r.programs[i].id == t.programs[i].id && r.programs[i].name == t.programs[i].name;
    forall i | 0 <= i < |t.domains| ensures IsProgramId(r, t.domains[i].programId) {
      var k :| 0 <= k < |t.programs| && t.programs[k].id == t.domains[i].programId;
      assert r.programs[k].id == t.programs[k].id;
    }
  }

  lemma DetailsComValid(t: Tables, did: nat, com: string)
    requires Valid(t)
    ensures Valid(SetDetailsCom(t, did, com))
  {
    var r := SetDetailsCom(t, did, com);
    assert forall i :: 0 <= i < |t.details| ==> r.details[i].id == t.details[i].id;
    forall i | 0 <= i < |t.domains| ensures IsProgramId(r, t.domains[i].programId) {
      var k :| 0 <= k < |t.programs| && t.programs[k].id == t.domains[i].programId;
      assert r.programs[k] == t.programs[k];
    }
  }

  /** A domain inserted for an existing program keeps the tables valid. */
  lemma InsertDomainValid(t: Tables, pid: nat, name: string)
    requires Valid(t) && IsProgramId(t, pid)
    ensures Valid(InsertOrIgnoreDomain(t, pid, name))
  {
    if DomainIdOf(t, name).None? {
      var r := InsertOrIgnoreDomain(t, pid, name);
      var n := |t.domains|;
      assert r.domains == t.domains + [DomainRow(t.domainSeq + 1, pid, name)];
      assert r.programs == t.programs;
      forall i, j | 0 <= i < j < |r.domains| ensures DomainOrder(r.domains[i], r.domains[j]) {
        if j < n {
          assert DomainOrder(t.domains[i], t.domains[j]);
        } else {
          assert t.domains[i].name != name;
        }
      }
      forall i | 0 <= i < |r.domains| ensures 0 < r.domains[i].id <= r.domainSeq && IsProgramId(r, r.domains[i].programId) {
        if i < n { assert r.domains[i] == t.domains[i]; }
      }
    }
  }

  /** A new detail row keeps the tables valid. */
  lemma InsertDetailValid(t: Tables, did: nat, row: Details)
    requires Valid(t)
    ensures Valid(InsertDetail(t, did, row))
  {
    var r := InsertDetail(t, did, row);
    var n := |t.details|;
    forall i, j | 0 <= i < j < |r.details| ensures DetailOrder(r.details[i], r.details[j]) {
      if j < n { assert DetailOrder(t.details[i], t.details[j]); }
    }
    forall i | 0 <= i < |r.details| ensures 0 < r.details[i].id <= r.detailSeq {
      if i < n { assert r.details[i] == t.details[i]; }
    }
  }

  // ---------------------------------------------------------------- the object

  /** An open connection to `database.db`; each method runs one statement. */
  class Database {
    var programs: seq<ProgramRow>
    var domains: seq<DomainRow>
    var details: seq<DetailRow>
    var programSeq: nat
    var domainSeq: nat
    var detailSeq: nat

    function State(): Tables
      reads this
    {
      Tables(programs, domains, details, programSeq, domainSeq, detailSeq)
    }

    /** `setup_database()` on a fresh file: three empty tables. */
    constructor ()
      ensures State() == Empty()
    {
      programs, domains, details := [], [], [];
      programSeq, domainSeq, detailSeq := 0, 0, 0;
    }

    /**
      `INSERT INTO programs (program_name) VALUES (?)`; a name already present
      violates the UNIQUE constraint, the statement fails and nothing changes.
     */
    method ExecInsertProgram(name: string) returns (ok: bool)
      modifies this
      ensures ok <==> ProgramIdOf(old(State()), name).None?
      ensures State() == if ok then InsertProgram(old(State()), name) else old(State())
    {
      ok := ProgramIdOf(State(), name).None?;
      if ok {
        programSeq := programSeq + 1;
        programs := programs + [ProgramRow(programSeq, name, None, None)];
      }
    }

    method ExecInsertOrIgnoreProgram(name: string)
      modifies this
      ensures State() == InsertOrIgnoreProgram(old(State()), name)
    {
      if ProgramIdOf(State(), name).None? {
        programSeq := programSeq + 1;
        programs := programs + [ProgramRow(programSeq, name, None, None)];
      }
    }

    method ExecDeleteDomainsOfProgram(pid: nat)
      modifies this
      ensures State() == DeleteDomainsOfProgram(old(State()), pid)
    {
      domains := Filter(domains, (d: DomainRow) => d.programId != pid);
    }

    method ExecDeleteProgram(pid: nat)
      modifies this
      ensures State() == DeleteProgram(old(State()), pid)
    {
      programs := Filter(programs, (p: ProgramRow) => p.id != pid);
    }

    method ExecDeleteDomain(did: nat)
      modifies this
      ensures State() == DeleteDomain(old(State()), did)
    {
      domains := Filter(domains, (d: DomainRow) => d.id != did);
    }

    method ExecDeleteDomainsLike(pattern: string)
      modifies this
      ensures State() == DeleteDomainsLike(old(State()), pattern)
    {
      domains := Filter(domains, (d: DomainRow) => !Like(d.name, pattern));
    }

    method ExecSetProgramCom(pid: nat, com: string)
      modifies this
      ensures State() == SetProgramCom(old(State()), pid, com)
    {
      programs := SetProgramCom(State(), pid, com).programs;
    }

    method ExecSetProgramUrl(name: string, url: string)
      modifies this
      ensures State() == SetProgramUrl(old(State()), name, url)
    {
      programs := SetProgramUrl(State(), name, url).programs;
    }

    method ExecSetDetailsCom(did: nat, com: string)
      modifies this
      ensures State() == SetDetailsCom(old(State()), did, com)
    {
      details := SetDetailsCom(State(), did, com).details;
    }

    method ExecInsertOrIgnoreDomain(pid: nat, name: string)
      modifies this
      ensures State() == InsertOrIgnoreDomain(old(State()), pid, name)
    {
      if DomainIdOf(State(), name).None? {
        domainSeq := domainSeq + 1;
        domains := domains + [DomainRow(domainSeq, pid, name)];
      }
    }

    method ExecInsertDetail(did: nat, row: Details)
      modifies this
      ensures State() == InsertDetail(old(State()), did, row)
    {
      detailSeq := detailSeq + 1;
      details := details + [DetailRow(detailSeq, did, row, None)];
    }

    /** ROLLBACK: the tables return to what they were when the transaction began. */
    method Rollback(snapshot: Tables)
      modifies this
      ensures State() == snapshot
    {
      programs, domains, details := snapshot.programs, snapshot.domains, snapshot.details;
      programSeq, domainSeq, detailSeq := snapshot.programSeq, snapshot.domainSeq, snapshot.detailSeq;
    }
  }
}
