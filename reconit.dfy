/**
  The first shell, `Reconit.py`: its own `enum_domain` (which also asks
  crt.sh), `add_url`, and the grouping of a program's rows by screenshot
  perceptual hash that `show` prints. Its `rm`, `add_com` and `add_program`
  are modelled in `Admin`.
 */
module Reconit {
  import opened Wrappers
  import opened Text
  import opened Dict
  import opened Store
  import ReconitV2

  // ---------------------------------------------------------------- enum_domain

  /** The crt.sh lookup: certificate names for `%.domain`, with every `*.` removed by sed. */
  function CrtShCommand(domain: string): string {
    "curl -s 'https://crt.sh/?q=%25." + domain + "&output=json' | jq -r '.[].name_value' | sed 's/\\*\\.//g'"
  }

  /** The passive tools of this shell: subfinder, amass, then crt.sh. */
  function PassiveTools(domain: string): seq<string> {
    ReconitV2.PassiveTools(domain) + [CrtShCommand(domain)]
  }

  function Tools(domain: string, mode: string): seq<string> {
    if mode == "passive" then PassiveTools(domain) else ReconitV2.ActiveTools(domain)
  }

  /**
    `enum_domain`: the output lines of every tool, collected in a list, then
    deduplicated and sorted; the same text the second shell builds from a set.
   */
  method EnumDomain(domain: string, mode: string, shell: ReconitV2.Shell) returns (r: string)
    ensures r == ReconitV2.SortedLines(ReconitV2.Found(shell, Tools(domain, mode)))
  {
    var tools := Tools(domain, mode);
    var resultLines: seq<string> := [];
    for i := 0 to |tools|
      invariant (set l | l in resultLines) == ReconitV2.Found(shell, tools[..i])
    {
      ReconitV2.FoundSnoc(shell, tools, i);
      SetOfAppend(resultLines, SplitLines(shell(tools[i])));
      resultLines := resultLines + SplitLines(shell(tools[i]));
    }
    assert tools[..|tools|] == tools;
    r := ReconitV2.SortedLines(set l | l in resultLines);
  }

  lemma SetOfAppend(a: seq<string>, b: seq<string>)
    ensures (set l | l in a + b) == (set l | l in a) + (set l | l in b)
  {
  }

  /** Asked for a passive enumeration, this shell finds every line the second shell finds, and crt.sh's. */
  lemma PassiveFindsMore(domain: string, shell: ReconitV2.Shell)
    ensures ReconitV2.Found(shell, Tools(domain, "passive")) ==
      ReconitV2.Found(shell, ReconitV2.Tools(domain, "passive")) + (set l | l in SplitLines(shell(CrtShCommand(domain))))
  {
    var tools := Tools(domain, "passive");
    ReconitV2.FoundSnoc(shell, tools, 2);
    assert tools[..3] == tools && tools[..2] == ReconitV2.Tools(domain, "passive");
  }

  // ---------------------------------------------------------------- add_url

  /**
    `add_url name url`: an unknown program changes nothing; a program with a
    non-empty url gets the new one on a line of its own after it; otherwise
    the new url replaces the empty or NULL one.
   */
  function AddUrl(t: Tables, name: string, url: string): Tables {
    match ProgramUrlOf(t, name)
    case None => t
    case Some(current) =>
      if current.Some? && current.value != "" then SetProgramUrl(t, name, current.value + "\n" + url)
      else SetProgramUrl(t, name, url)
  }

  /** The urls a program holds: one per line, none when the column is NULL or empty. */
  function Urls(url: Option<string>): seq<string> {
    if url.None? || url.value == "" then [] else Split(url.value, "\n")
  }

  /** `add_url(program_name, new_url)`; `found` tells whether the program exists. */
  method ExecAddUrl(db: Database, name: string, url: string) returns (found: bool)
    modifies db
    ensures db.State() == AddUrl(old(db.State()), name, url)
    ensures found <==> ProgramIdOf(old(db.State()), name).Some?
  {
    var result := ProgramUrlOf(db.State(), name);
    found := result.Some?;
    if result.Some? {
      var current := result.value;
      if current.Some? && current.value != "" {
        db.ExecSetProgramUrl(name, current.value + "\n" + url);
      } else {
        db.ExecSetProgramUrl(name, url);
      }
    }
  }

  /**
    A url without a line break is appended to the program's list of urls,
    every other program keeps its row, and the tables stay valid.
   */
  lemma AddUrlAppends(t: Tables, name: string, url: string)
    requires Valid(t) && ProgramIdOf(t, name).Some? && '\n' !in url && url != ""
    ensures var r := AddUrl(t, name, url);
      && Valid(r)
      && ProgramUrlOf(r, name).Some?
      && Urls(ProgramUrlOf(r, name).value) == Urls(ProgramUrlOf(t, name).value) + [url]
      && |r.programs| == |t.programs|
      && (forall i :: 0 <= i < |t.programs| && t.programs[i].name != name ==> r.programs[i] == t.programs[i])
      && r.domains == t.domains && r.details == t.details
  {
    var current := ProgramUrlOf(t, name).value;
    var stored := StoredUrl(current, url);
    assert AddUrl(t, name, url) == SetProgramUrl(t, name, stored);
    ProgramUrlValid(t, name, stored);
    UrlStored(t, name, stored);
    StoredUrlList(current, url);
    UrlFrame(t, name, stored);
  }

  /** The text `add_url` writes for a program whose url column holds `current`. */
  function StoredUrl(current: Option<string>, url: string): string {
    if current.Some? && current.value != "" then current.value + "\n" + url else url
  }

  lemma StoredUrlList(current: Option<string>, url: string)
    requires '\n' !in url && url != ""
    ensures Urls(Some(StoredUrl(current, url))) == Urls(current) + [url]
  {
    if current.Some? && current.value != "" {
      SplitSnoc(current.value, url);
    } else {
      ContainsChar(url, '\n');
    }
  }

  lemma UrlFrame(t: Tables, name: string, url: string)
    ensures var r := SetProgramUrl(t, name, url);
      forall i :: 0 <= i < |t.programs| && t.programs[i].name != name ==> r.programs[i] == t.programs[i]
  {
    var r := SetProgramUrl(t, name, url);
    forall i | 0 <= i < |t.programs| && t.programs[i].name != name ensures r.programs[i] == t.programs[i] {
      assert r.programs[i].(url := t.programs[i].url) == t.programs[i];
    }
  }

  /** After `UPDATE programs SET url = ? WHERE program_name = ?` the program of that name reads back the new url. */
  lemma UrlStored(t: Tables, name: string, url: string)
    requires ProgramIdOf(t, name).Some?
    ensures ProgramUrlOf(SetProgramUrl(t, name, url), name) == Some(Some(url))
  {
    var r := SetProgramUrl(t, name, url);
    var i :| 0 <= i < |t.programs| && t.programs[i].name == name;
    assert r.programs[i].name == name;
    var j :| 0 <= j < |r.programs| && r.programs[j].name == name && r.programs[j].url == ProgramUrlOf(r, name).value;
    assert r.programs[j].(url := t.programs[j].url) == t.programs[j];
  }

  /** Splitting `s + "\n" + u` on line breaks gives the lines of `s`, then `u`. */
  lemma SplitSnoc(s: string, u: string)
    requires '\n' !in u
    ensures Split(s + "\n" + u, "\n") == Split(s, "\n") + [u]
  {
    var parts := Split(s, "\n");
    JoinSplit(s, "\n");
    JoinSnoc(parts, u, "\n");
    forall k | 0 <= k < |parts + [u]| ensures '\n' !in (parts + [u])[k] {
      if k < |parts| {
        ContainsChar(parts[k], '\n');
      }
    }
    SplitJoin(parts + [u], '\n');
  }

  /** Joining one more part appends the separator and the part. */
  lemma {:induction false} JoinSnoc(parts: seq<string>, u: string, sep: string)
    requires parts != []
    ensures Join(parts + [u], sep) == Join(parts, sep) + sep + u
  {
    if |parts| > 1 {
      JoinSnoc(parts[1..], u, sep);
      assert (parts + [u])[1..] == parts[1..] + [u];
    }
  }

  // ---------------------------------------------------------------- show

  /** A row of `show`'s query: a domain of the program joined with one of its detail rows. */
  datatype ShowRow = ShowRow(
    domainName: string,
    httpStatus: Option<string>,
    ip: Option<string>,
    title: Option<string>,
    techno: Option<string>,
    openPort: Option<string>,
    screen: Option<string>,
    phash: Option<string>,
    spfdmarc: Option<string>,
    httpMethod: Option<string>,
    com: Option<string>)

  /** The screenshot hashes of `rows` in order of first appearance, each once (NULL is one hash). */
  function FirstKeys(rows: seq<ShowRow>): seq<Option<string>> {
    if rows == [] then []
    else
      var ks := FirstKeys(rows[..|rows| - 1]);
      var k := rows[|rows| - 1].phash;
      if k in ks then ks else ks + [k]
  }

  /** The rows with hash `k`, in their order. */
  function Group(rows: seq<ShowRow>, k: Option<string>): seq<ShowRow> {
    if rows == [] then []
    else
      var g := Group(rows[..|rows| - 1], k);
      if rows[|rows| - 1].phash == k then g + [rows[|rows| - 1]] else g
  }

  /** Position of the first row with hash `k`. */
  function FirstIndex(rows: seq<ShowRow>, k: Option<string>): Option<nat> {
    if rows == [] then None
    else
      match FirstIndex(rows[..|rows| - 1], k)
      case Some(i) => Some(i)
      case None => if rows[|rows| - 1].phash == k then Some(|rows| - 1) else None
  }

  /** The dictionary `grouped_domains` describes: hash `k` maps to `Group(rows, k)`, keys in first-appearance order. */
  ghost predicate Grouping(d: seq<(Option<string>, seq<ShowRow>)>, rows: seq<ShowRow>) {
    && Keys(d) == FirstKeys(rows)
    && DistinctKeys(d)
    && forall k :: Get(d, k) == if k in FirstKeys(rows) then Some(Group(rows, k)) else None
  }

  /** `show`'s loop: append each row to the list of its hash, creating the list on first sight. */
  method GroupByPhash(rows: seq<ShowRow>) returns (grouped: seq<(Option<string>, seq<ShowRow>)>)
    ensures Grouping(grouped, rows)
  {
    grouped := [];
    for i := 0 to |rows|
      invariant Grouping(grouped, rows[..i])
    {
      var row := rows[i];
      GroupAppend(grouped, rows, i);
      if row.phash !in Keys(grouped) {
        grouped := Put(grouped, row.phash, []);
      }
      grouped := Put(grouped, row.phash, Get(grouped, row.phash).value + [row]);
    }
    assert rows[..|rows|] == rows;
  }

  /** One pass of the loop turns the grouping of the first `i` rows into that of the first `i + 1`. */
  lemma GroupAppend(d: seq<(Option<string>, seq<ShowRow>)>, rows: seq<ShowRow>, i: nat)
    requires i < |rows| && Grouping(d, rows[..i])
    ensures var k := rows[i].phash;
      var d1 := if k !in Keys(d) then Put(d, k, []) else d;
      Get(d1, k).Some? && Grouping(Put(d1, k, Get(d1, k).value + [rows[i]]), rows[..i + 1])
  {
    var k := rows[i].phash;
    var d1 := if k !in Keys(d) then Put(d, k, []) else d;
    GroupStep(rows, i);
    assert Keys(d1) == FirstKeys(rows[..i + 1]);
    assert Get(d1, k) == Some(Group(rows[..i], k));
    var d2 := Put(d1, k, Get(d1, k).value + [rows[i]]);
    assert Keys(d2) == Keys(d1);
    forall k' ensures Get(d2, k') == if k' in FirstKeys(rows[..i + 1]) then Some(Group(rows[..i + 1], k')) else None {
      if k' != k {
        assert Get(d2, k') == Get(d, k');
        assert k' in FirstKeys(rows[..i + 1]) <==> k' in FirstKeys(rows[..i]);
      }
    }
  }

  lemma GroupStep(rows: seq<ShowRow>, i: nat)
    requires i < |rows|
    ensures var k := rows[i].phash; var ks := FirstKeys(rows[..i]);
      && FirstKeys(rows[..i + 1]) == (if k in ks then ks else ks + [k])
      && Group(rows[..i + 1], k) == Group(rows[..i], k) + [rows[i]]
      && (forall k' :: k' != k ==> Group(rows[..i + 1], k') == Group(rows[..i], k'))
      && (k !in ks ==> Group(rows[..i], k) == [])
  {
    var k := rows[i].phash;
    assert rows[..i + 1][..i] == rows[..i];
    if k !in FirstKeys(rows[..i]) {
      GroupEmpty(rows[..i], k);
    }
  }

  /** A hash no row carries has an empty group. */
  lemma {:induction false} GroupEmpty(rows: seq<ShowRow>, k: Option<string>)
    requires k !in FirstKeys(rows)
    ensures Group(rows, k) == []
  {
    if rows != [] {
      GroupEmpty(rows[..|rows| - 1], k);
    }
  }

  /** The keys are exactly the hashes the rows carry, each once. */
  lemma {:induction false} FirstKeysExact(rows: seq<ShowRow>)
    ensures forall k :: k in FirstKeys(rows) <==> exists j :: 0 <= j < |rows| && rows[j].phash == k
    ensures forall a, b :: 0 <= a < b < |FirstKeys(rows)| ==> FirstKeys(rows)[a] != FirstKeys(rows)[b]
  {
    if rows != [] {
      var prefix := rows[..|rows| - 1];
      FirstKeysExact(prefix);
      forall k ensures k in FirstKeys(rows) <==> exists j :: 0 <= j < |rows| && rows[j].phash == k {
        if exists j :: 0 <= j < |rows| && rows[j].phash == k {
          var j :| 0 <= j < |rows| && rows[j].phash == k;
          if j < |prefix| {
            assert prefix[j] == rows[j];
          }
        }
        if k in FirstKeys(prefix) {
          var j :| 0 <= j < |prefix| && prefix[j].phash == k;
          assert rows[j] == prefix[j];
        }
      }
    }
  }

  /** Keys come in the order their hash first appears among the rows. */
  lemma {:induction false} FirstKeysOrdered(rows: seq<ShowRow>)
    ensures forall k :: k in FirstKeys(rows) ==> FirstIndex(rows, k).Some?
    ensures forall a, b :: 0 <= a < b < |FirstKeys(rows)| ==>
      FirstIndex(rows, FirstKeys(rows)[a]).Some? && FirstIndex(rows, FirstKeys(rows)[b]).Some? &&
      FirstIndex(rows, FirstKeys(rows)[a]).value < FirstIndex(rows, FirstKeys(rows)[b]).value
  {
    if rows != [] {
      var prefix := rows[..|rows| - 1];
      var x := rows[|rows| - 1];
      var ks := FirstKeys(prefix);
      FirstKeysOrdered(prefix);
      FirstIndexBound(prefix);
      forall k | k in ks ensures FirstIndex(rows, k) == FirstIndex(prefix, k) {
      }
      if x.phash !in ks {
        FirstKeysHave(prefix, x.phash);
      }
      var fk := FirstKeys(rows);
      forall a, b | 0 <= a < b < |FirstKeys(rows)|
        ensures FirstIndex(rows, FirstKeys(rows)[a]).Some? && FirstIndex(rows, FirstKeys(rows)[b]).Some? &&
          FirstIndex(rows, FirstKeys(rows)[a]).value < FirstIndex(rows, FirstKeys(rows)[b]).value
      {
        assert fk[a] == ks[a] && ks[a] in ks;
        if b < |ks| {
          assert fk[b] == ks[b] && ks[b] in ks;
        } else {
          assert x.phash !in ks && fk == ks + [x.phash];
          assert FirstIndex(rows, fk[b]) == Some(|prefix|);
        }
      }
      assert forall k :: k in fk ==> FirstIndex(rows, k).Some?;
    } else {
      assert FirstKeys(rows) == [];
    }
  }

  /** A hash the first rows do not carry has no first index among them. */
  lemma {:induction false} FirstKeysHave(rows: seq<ShowRow>, k: Option<string>)
    requires k !in FirstKeys(rows)
    ensures FirstIndex(rows, k).None?
  {
    if rows != [] {
      FirstKeysHave(rows[..|rows| - 1], k);
    }
  }

  lemma {:induction false} FirstIndexBound(rows: seq<ShowRow>)
    ensures forall k :: FirstIndex(rows, k).Some? ==> FirstIndex(rows, k).value < |rows|
  {
    if rows != [] {
      FirstIndexBound(rows[..|rows| - 1]);
    }
  }

  /** The rows of a group are exactly the rows with that hash. */
  lemma {:induction false} GroupExact(rows: seq<ShowRow>, k: Option<string>)
    ensures forall x :: x in Group(rows, k) <==> x in rows && x.phash == k
  {
    if rows != [] {
      var prefix := rows[..|rows| - 1];
      GroupExact(prefix, k);
      assert rows == prefix + [rows[|rows| - 1]];
    }
  }

  /** The hashes `show` warns about, in the order it prints the groups: those shared by several rows. */
  function Warnings(grouped: seq<(Option<string>, seq<ShowRow>)>): seq<Option<string>> {
    if grouped == [] then []
    else
      var w := Warnings(grouped[..|grouped| - 1]);
      if |grouped[|grouped| - 1].1| > 1 then w + [grouped[|grouped| - 1].0] else w
  }

  /** `show` prints the duplicate warning for a hash exactly when more than one row carries it. */
  lemma WarnedIffShared(grouped: seq<(Option<string>, seq<ShowRow>)>, rows: seq<ShowRow>, k: Option<string>)
    requires Grouping(grouped, rows)
    ensures k in Warnings(grouped) <==> |Group(rows, k)| > 1
  {
    WarningsExact(grouped, k);
    forall i | 0 <= i < |grouped| && grouped[i].0 == k ensures grouped[i].1 == Group(rows, k) {
      assert grouped[i] == (k, grouped[i].1);
      assert Keys(grouped)[i] == k;
      GetPair(grouped, k, grouped[i].1);
    }
    if k in Keys(grouped) {
      var i :| 0 <= i < |grouped| && Keys(grouped)[i] == k;
      assert grouped[i].0 == k;
    } else {
      GroupEmpty(rows, k);
    }
  }

  lemma {:induction false} WarningsExact(grouped: seq<(Option<string>, seq<ShowRow>)>, k: Option<string>)
    ensures k in Warnings(grouped) <==> exists i :: 0 <= i < |grouped| && grouped[i].0 == k && |grouped[i].1| > 1
  {
    if grouped != [] {
      var prefix := grouped[..|grouped| - 1];
      WarningsExact(prefix, k);
      if exists i :: 0 <= i < |grouped| && grouped[i].0 == k && |grouped[i].1| > 1 {
        var i :| 0 <= i < |grouped| && grouped[i].0 == k && |grouped[i].1| > 1;
        if i < |prefix| {
          assert prefix[i] == grouped[i];
        }
      }
      if exists i :: 0 <= i < |prefix| && prefix[i].0 == k && |prefix[i].1| > 1 {
        var i :| 0 <= i < |prefix| && prefix[i].0 == k && |prefix[i].1| > 1;
        assert grouped[i] == prefix[i];
      }
    }
  }
}
