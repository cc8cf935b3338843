/**
  The maintenance commands both shells share, on the tables of `database.db`:
  `rm program|domain <names>` deletes by name (a domain name holding `*`
  deletes every subdomain that a LIKE pattern matches), `add_com` attaches a
  comment to a program or to every detail row of a domain, and `add_program`
  registers a program name.

  Every statement is committed as soon as it runs; nothing cascades, so the
  detail rows of a deleted domain stay behind.
 */
module Admin {
  import opened Wrappers
  import opened Text
  import opened Store

  // ---------------------------------------------------------------- rm

  /** The LIKE pattern `rm domain` builds from a wildcard name: `%.` and the name with every `*.` removed. */
  function WildcardPattern(name: string): string {
    "%." + Replace(name, "*.", "")
  }

  /** The domain rows `SELECT id, domain_name FROM domains WHERE domain_name LIKE ?` returns. */
  function Matching(t: Tables, pattern: string): seq<DomainRow> {
    Filter(t.domains, (d: DomainRow) => Like(d.name, pattern))
  }

  /** `rm program name`: its domains, then the program itself; an unknown name changes nothing. */
  function RmProgram(t: Tables, name: string): Tables {
    match ProgramIdOf(t, name)
    case None => t
    case Some(pid) => DeleteProgram(DeleteDomainsOfProgram(t, pid), pid)
  }

  /** `rm domain name`: every LIKE match for a name holding `*`, otherwise the row with that exact name. */
  function RmDomain(t: Tables, name: string): Tables {
    if '*' in name then
      if Matching(t, WildcardPattern(name)) == [] then t else DeleteDomainsLike(t, WildcardPattern(name))
    else
      match DomainIdOf(t, name)
      case None => t
      case Some(did) => DeleteDomain(t, did)
  }

  /** The kinds of entity `rm` and `add_com` accept. */
  predicate KnownKind(kind: string) {
    kind == "program" || kind == "domain"
  }

  function RmOne(t: Tables, kind: string, name: string): Tables {
    if kind == "program" then RmProgram(t, name)
    else if kind == "domain" then RmDomain(t, name)
    else t
  }

  /** The tables after `rm kind names`: each name in turn, against what the previous ones left. */
  function Rm(t: Tables, kind: string, names: seq<string>): Tables {
    if names == [] then t
    else RmOne(Rm(t, kind, names[..|names| - 1]), kind, names[|names| - 1])
  }

  /** Whether `rm` reports a deletion for `name` (the alternative is its "not found" message). */
  predicate RmFound(t: Tables, kind: string, name: string) {
    if kind == "program" then ProgramIdOf(t, name).Some?
    else if '*' in name then Matching(t, WildcardPattern(name)) != []
    else DomainIdOf(t, name).Some?
  }

  /**
    `rm(entity_type, entity_names)` on an open connection: the tables become
    `Rm` of the old ones, and `found[i]` tells whether the i-th name was found.
    An unknown kind changes nothing and reports no name.
   */
  method ExecRm(db: Database, kind: string, names: seq<string>) returns (found: seq<bool>)
    modifies db
    ensures db.State() == Rm(old(db.State()), kind, names)
    ensures !KnownKind(kind) ==> found == []
    ensures KnownKind(kind) ==> found == Reports(old(db.State()), kind, names)
  {
    ghost var t0 := db.State();
    found := [];
    if !KnownKind(kind) {
      RmUnknownKind(t0, kind, names);
      return;
    }
    var i := 0;
    while i < |names|
      invariant 0 <= i <= |names|
      invariant db.State() == Rm(t0, kind, names[..i])
      invariant found == Reports(t0, kind, names[..i])
    {
      var hit := ExecRmOne(db, kind, names[i]);
      RmStep(t0, kind, names, i);
      found := found + [hit];
      i := i + 1;
    }
    assert names[..i] == names;
  }

  /** One name of `rm`: the statements the loop body runs for it. */
  method ExecRmOne(db: Database, kind: string, name: string) returns (hit: bool)
    requires KnownKind(kind)
    modifies db
    ensures db.State() == RmOne(old(db.State()), kind, name)
    ensures hit <==> RmFound(old(db.State()), kind, name)
  {
    if kind == "program" {
      var pid := ProgramIdOf(db.State(), name);
      hit := pid.Some?;
      if pid.Some? {
        db.ExecDeleteDomainsOfProgram(pid.value);
        db.ExecDeleteProgram(pid.value);
      }
    } else if '*' in name {
      var pattern := WildcardPattern(name);
      hit := Matching(db.State(), pattern) != [];
      if hit {
        db.ExecDeleteDomainsLike(pattern);
      }
    } else {
      var did := DomainIdOf(db.State(), name);
      hit := did.Some?;
      if did.Some? {
        db.ExecDeleteDomain(did.value);
      }
    }
  }

  /** The messages of `rm kind names`, one per name: whether it was found. */
  function Reports(t: Tables, kind: string, names: seq<string>): seq<bool> {
    if names == [] then []
    else
      var prefix := names[..|names| - 1];
      Reports(t, kind, prefix) + [RmFound(Rm(t, kind, prefix), kind, names[|names| - 1])]
  }

  /** The i-th report is about the i-th name, against the tables the names before it left. */
  lemma {:induction false} ReportsAt(t: Tables, kind: string, names: seq<string>)
    ensures |Reports(t, kind, names)| == |names|
    ensures forall i :: 0 <= i < |names| ==>
      (Reports(t, kind, names)[i] <==> RmFound(Rm(t, kind, names[..i]), kind, names[i]))
  {
    if names != [] {
      var prefix := names[..|names| - 1];
      var r := Reports(t, kind, names);
      ReportsAt(t, kind, prefix);
      assert r == Reports(t, kind, prefix) + [RmFound(Rm(t, kind, prefix), kind, names[|names| - 1])];
      forall i | 0 <= i < |names| ensures r[i] <==> RmFound(Rm(t, kind, names[..i]), kind, names[i]) {
        if i < |prefix| {
          assert prefix[..i] == names[..i] && prefix[i] == names[i];
          assert r[i] == Reports(t, kind, prefix)[i];
        } else {
          assert names[..i] == prefix;
        }
      }
    }
  }

  lemma RmStep(t: Tables, kind: string, names: seq<string>, i: nat)
    requires i < |names|
    ensures Rm(t, kind, names[..i + 1]) == RmOne(Rm(t, kind, names[..i]), kind, names[i])
    ensures Reports(t, kind, names[..i + 1]) == Reports(t, kind, names[..i]) + [RmFound(Rm(t, kind, names[..i]), kind, names[i])]
  {
    assert names[..i + 1][..i] == names[..i];
  }

  lemma {:induction false} RmUnknownKind(t: Tables, kind: string, names: seq<string>)
    requires !KnownKind(kind)
    ensures Rm(t, kind, names) == t
  {
    if names != [] {
      RmUnknownKind(t, kind, names[..|names| - 1]);
    }
  }

  /**
    `rm` keeps the tables valid, and it never touches a detail row nor a
    counter: the `ON DELETE CASCADE` of the schema does not fire.
   */
  lemma {:induction false} RmValid(t: Tables, kind: string, names: seq<string>)
    requires Valid(t)
    ensures var r := Rm(t, kind, names);
      Valid(r) && r.details == t.details &&
      r.programSeq == t.programSeq && r.domainSeq == t.domainSeq && r.detailSeq == t.detailSeq
  {
    if names != [] {
      var s := Rm(t, kind, names[..|names| - 1]);
      RmValid(t, kind, names[..|names| - 1]);
      RmOneValid(s, kind, names[|names| - 1]);
    }
  }

  lemma RmOneValid(t: Tables, kind: string, name: string)
    requires Valid(t)
    ensures var r := RmOne(t, kind, name);
      Valid(r) && r.details == t.details &&
      r.programSeq == t.programSeq && r.domainSeq == t.domainSeq && r.detailSeq == t.detailSeq
  {
    if kind == "program" {
      match ProgramIdOf(t, name)
      case None =>
      case Some(pid) => DeleteProgramValid(t, pid);
    } else if kind == "domain" {
      if '*' in name {
        var pattern := WildcardPattern(name);
        DeleteDomainsValid(t, (d: DomainRow) => !Like(d.name, pattern));
      } else {
        match DomainIdOf(t, name)
        case None =>
        case Some(did) => DeleteDomainsValid(t, (d: DomainRow) => d.id != did);
      }
    }
  }

  /** The domain `d` belongs to the program named `name`. */
  predicate OwnedBy(t: Tables, d: DomainRow, name: string) {
    exists p :: p in t.programs && p.name == name && p.id == d.programId
  }

  /** In valid tables two program rows with the same name, or the same id, are the same row. */
  lemma ProgramsDistinct(t: Tables, i: nat, j: nat)
    requires Valid(t) && i < |t.programs| && j < |t.programs|
    ensures t.programs[i].name == t.programs[j].name <==> i == j
    ensures t.programs[i].id == t.programs[j].id <==> i == j
  {
    if i < j {
      assert ProgramOrder(t.programs[i], t.programs[j]);
    } else if j < i {
      assert ProgramOrder(t.programs[j], t.programs[i]);
    }
  }

  /** The same for domain rows. */
  lemma DomainsDistinct(t: Tables, i: nat, j: nat)
    requires Valid(t) && i < |t.domains| && j < |t.domains|
    ensures t.domains[i].name == t.domains[j].name <==> i == j
    ensures t.domains[i].id == t.domains[j].id <==> i == j
  {
    if i < j {
      assert DomainOrder(t.domains[i], t.domains[j]);
    } else if j < i {
      assert DomainOrder(t.domains[j], t.domains[i]);
    }
  }

  /**
    `rm program name` removes exactly the program of that name and exactly
    the domains it owns, keeps every other row, and leaves the detail rows.
   */
  lemma RmProgramEffect(t: Tables, name: string)
    requires Valid(t)
    ensures var r := RmProgram(t, name);
      && (forall p :: p in r.programs <==> p in t.programs && p.name != name)
      && (forall d :: d in r.domains <==> d in t.domains && !OwnedBy(t, d, name))
      && r.details == t.details
  {
    match ProgramIdOf(t, name)
    case None =>
      forall p | p in t.programs ensures p.name != name {
        var k :| 0 <= k < |t.programs| && t.programs[k] == p;
      }
    case Some(pid) =>
      var i :| 0 <= i < |t.programs| && t.programs[i].name == name && t.programs[i].id == pid;
      ProgramOfId(t, i);
      DomainsOfId(t, i);
  }

  /** In valid tables the program row `i` is the only one with its id and the only one with its name. */
  lemma ProgramOfId(t: Tables, i: nat)
    requires Valid(t) && i < |t.programs|
    ensures forall p :: p in t.programs ==> (p.id != t.programs[i].id <==> p.name != t.programs[i].name)
  {
    forall p | p in t.programs ensures p.id != t.programs[i].id <==> p.name != t.programs[i].name {
      var k :| 0 <= k < |t.programs| && t.programs[k] == p;
      ProgramsDistinct(t, i, k);
    }
  }

  /** The domains of the program row `i` are the domains the program of its name owns. */
  lemma DomainsOfId(t: Tables, i: nat)
    requires Valid(t) && i < |t.programs|
    ensures forall d :: d in t.domains ==> (d.programId != t.programs[i].id <==> !OwnedBy(t, d, t.programs[i].name))
  {
    var name := t.programs[i].name;
    forall d | d in t.domains ensures d.programId != t.programs[i].id <==> !OwnedBy(t, d, name) {
      assert t.programs[i] in t.programs;
      if OwnedBy(t, d, name) {
        var p :| p in t.programs && p.name == name && p.id == d.programId;
        var k :| 0 <= k < |t.programs| && t.programs[k] == p;
        ProgramsDistinct(t, i, k);
      }
    }
  }

  /** `rm domain name` for a name without `*` removes exactly the row of that name. */
  lemma RmDomainExact(t: Tables, name: string)
    requires Valid(t) && '*' !in name
    ensures var r := RmDomain(t, name);
      && (forall d :: d in r.domains <==> d in t.domains && d.name != name)
      && r.programs == t.programs && r.details == t.details
  {
    match DomainIdOf(t, name)
    case None =>
      forall d | d in t.domains ensures d.name != name {
        var k :| 0 <= k < |t.domains| && t.domains[k] == d;
      }
    case Some(did) =>
      var i :| 0 <= i < |t.domains| && t.domains[i].id == did && t.domains[i].name == name;
      forall d | d in t.domains ensures d.id != did <==> d.name != name {
        var k :| 0 <= k < |t.domains| && t.domains[k] == d;
        DomainsDistinct(t, i, k);
      }
  }

  /** Filtering with a predicate every row satisfies keeps every row. */
  lemma {:induction false} FilterAll<T(!new)>(s: seq<T>, p: T -> bool)
    requires forall x :: x in s ==> p(x)
    ensures Filter(s, p) == s
  {
    if s != [] {
      assert s[0] in s;
      assert forall x :: x in s[1..] ==> x in s;
      FilterAll(s[1..], p);
    }
  }

  /**
    `rm domain` with a wildcard name whose remainder `q` holds no LIKE wildcard
    removes exactly the domains whose name ends, ignoring ASCII case, in `.q`;
    so the domain `q` itself survives.
   */
  lemma RmDomainWildcard(t: Tables, name: string)
    requires '*' in name && Literal(Replace(name, "*.", ""))
    ensures var q := Replace(name, "*.", ""); var r := RmDomain(t, name);
      && (forall d :: d in r.domains <==> d in t.domains && !EndsWith(Lower(d.name), Lower("." + q)))
      && (forall d :: d in t.domains && |d.name| == |q| ==> d in r.domains)
      && r.programs == t.programs && r.details == t.details
  {
    var q := Replace(name, "*.", "");
    var pattern := WildcardPattern(name);
    assert pattern == "%" + ("." + q);
    assert Literal("." + q);
    forall s: string ensures Like(s, pattern) <==> EndsWith(Lower(s), Lower("." + q)) {
      LikeSuffix(s, "." + q);
    }
    if Matching(t, pattern) == [] {
      forall d | d in t.domains ensures !Like(d.name, pattern) {
        assert d !in Matching(t, pattern);
      }
    }
  }

  /** For the usual argument `*.example.com` the pattern is `%.example.com`. */
  lemma WildcardPatternOf(domain: string)
    requires '*' !in domain
    ensures WildcardPattern("*." + domain) == "%." + domain
  {
    forall k: nat ensures !OccursAt(domain, "*.", k) {
      if k < |domain| {
        assert domain[k] in domain;
      }
      if k + 2 <= |domain| {
        assert domain[k..k + 2][0] == domain[k];
      }
    }
    RemovePrefix("*.", domain);
  }

  // ---------------------------------------------------------------- add_com

  /** The detail row describes the domain named `name`. */
  predicate Describes(t: Tables, row: DetailRow, name: string) {
    exists d :: d in t.domains && d.id == row.domainId && d.name == name
  }

  /** `add_com kind name comment`: the program's comment, or that of every detail row of the domain. */
  function AddCom(t: Tables, kind: string, name: string, comment: string): Tables {
    if kind == "program" then
      match ProgramIdOf(t, name)
      case None => t
      case Some(pid) => SetProgramCom(t, pid, comment)
    else if kind == "domain" then
      match DomainIdOf(t, name)
      case None => t
      case Some(did) => SetDetailsCom(t, did, comment)
    else t
  }

  /** Whether `add_com` reports success (the alternative is its "not found" message). */
  predicate AddComFound(t: Tables, kind: string, name: string) {
    if kind == "program" then ProgramIdOf(t, name).Some?
    else kind == "domain" && DomainIdOf(t, name).Some?
  }

  /** `add_com(target_type, target_name, comment)` on an open connection. */
  method ExecAddCom(db: Database, kind: string, name: string, comment: string) returns (found: bool)
    modifies db
    ensures db.State() == AddCom(old(db.State()), kind, name, comment)
    ensures found <==> AddComFound(old(db.State()), kind, name)
  {
    found := false;
    if kind == "program" {
      var pid := ProgramIdOf(db.State(), name);
      if pid.Some? {
        db.ExecSetProgramCom(pid.value, comment);
        found := true;
      }
    } else if kind == "domain" {
      var did := DomainIdOf(db.State(), name);
      if did.Some? {
        db.ExecSetDetailsCom(did.value, comment);
        found := true;
      }
    }
  }

  /** `add_com program` sets the comment of the program of that name and changes nothing else. */
  lemma AddComProgram(t: Tables, name: string, comment: string)
    requires Valid(t)
    ensures var r := AddCom(t, "program", name, comment);
      && r.domains == t.domains && r.details == t.details && |r.programs| == |t.programs|
      && forall i :: 0 <= i < |t.programs| ==>
           r.programs[i] == if t.programs[i].name == name then t.programs[i].(com := Some(comment)) else t.programs[i]
  {
    match ProgramIdOf(t, name)
    case None =>
    case Some(pid) =>
      var r := AddCom(t, "program", name, comment);
      var k :| 0 <= k < |t.programs| && t.programs[k].name == name && t.programs[k].id == pid;
      forall i | 0 <= i < |t.programs|
        ensures r.programs[i] == if t.programs[i].name == name then t.programs[i].(com := Some(comment)) else t.programs[i]
      {
        ProgramsDistinct(t, i, k);
      }
  }

  /**
    `add_com domain` sets the comment of every detail row of the domain of
    that name (each scan of it left one) and changes nothing else.
   */
  lemma AddComDomain(t: Tables, name: string, comment: string)
    requires Valid(t)
    ensures var r := AddCom(t, "domain", name, comment);
      && r.programs == t.programs && r.domains == t.domains && |r.details| == |t.details|
      && forall i :: 0 <= i < |t.details| ==>
           r.details[i] == if Describes(t, t.details[i], name) then t.details[i].(com := Some(comment)) else t.details[i]
  {
    match DomainIdOf(t, name)
    case None =>
      forall d | d in t.domains ensures d.name != name {
        var k :| 0 <= k < |t.domains| && t.domains[k] == d;
      }
    case Some(did) =>
      var k :| 0 <= k < |t.domains| && t.domains[k].id == did && t.domains[k].name == name;
      DetailsOfId(t, k);
  }

  /** In valid tables the detail rows of domain row `k` are those that describe the domain of its name. */
  lemma DetailsOfId(t: Tables, k: nat)
    requires Valid(t) && k < |t.domains|
    ensures forall row :: row in t.details ==> (row.domainId == t.domains[k].id <==> Describes(t, row, t.domains[k].name))
  {
    var name := t.domains[k].name;
    forall row | row in t.details ensures row.domainId == t.domains[k].id <==> Describes(t, row, name) {
      assert t.domains[k] in t.domains;
      if Describes(t, row, name) {
        var d :| d in t.domains && d.id == row.domainId && d.name == name;
        var j :| 0 <= j < |t.domains| && t.domains[j] == d;
        DomainsDistinct(t, j, k);
      }
    }
  }

  /** `add_com` keeps the tables valid. */
  lemma AddComValid(t: Tables, kind: string, name: string, comment: string)
    requires Valid(t)
    ensures Valid(AddCom(t, kind, name, comment))
  {
    if kind == "program" {
      match ProgramIdOf(t, name)
      case None =>
      case Some(pid) => ProgramComValid(t, pid, comment);
    } else if kind == "domain" {
      match DomainIdOf(t, name)
      case None =>
      case Some(did) => DetailsComValid(t, did, comment);
    }
  }

  // ---------------------------------------------------------------- add_program

  /** The second shell's `add_program`: `INSERT OR IGNORE`, so a known name is left as it is. */
  method AddProgram(db: Database, name: string)
    modifies db
    ensures db.State() == InsertOrIgnoreProgram(old(db.State()), name)
  {
    db.ExecInsertOrIgnoreProgram(name);
  }

  /**
    The first shell's `add_program`: it looks the name up and runs a plain
    `INSERT` only when it is absent, which leaves the same tables as
    `INSERT OR IGNORE`; `added` tells which message it prints.
   */
  method AddProgramChecked(db: Database, name: string) returns (added: bool)
    modifies db
    ensures added <==> ProgramIdOf(old(db.State()), name).None?
    ensures db.State() == InsertOrIgnoreProgram(old(db.State()), name)
  {
    var existing := ProgramIdOf(db.State(), name);
    if existing.Some? {
      added := false;
    } else {
      added := db.ExecInsertProgram(name);
    }
  }
}
