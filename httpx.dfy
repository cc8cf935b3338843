/**
  `get_httpx_data`: the lines httpx prints are matched against
  `(https?://[^\s]+) [(\d+)] [(\w+)] [(.*?)] [(.*?)] [(.*?)]`, and every
  matching line becomes the record of its host, keyed by the URL with the
  scheme removed. The lazy groups are read as "up to the next `] [`" (and the
  last one "up to the next `]`"), which is what the regular expression does
  whenever no field itself contains `] [`.
 */
module Httpx {
  import opened Wrappers
  import opened Text
  import opened Dict
  import opened EnumTask

  /** The six groups of one match. */
  datatype Fields = Fields(url: string, status: string, verb: string, title: string, ip: string, tech: string)

  /** `\w` on ASCII text. */
  predicate IsWordChar(c: char) {
    ('a' <= c <= 'z') || ('A' <= c <= 'Z') || ('0' <= c <= '9') || c == '_'
  }

  predicate NotSpace(c: char) {
    !IsSpace(c)
  }

  /** The text a match consists of. */
  function Render(f: Fields): string {
    f.url + " [" + f.status + "] [" + f.verb + "] [" + f.title + "] [" + f.ip + "] [" + f.tech + "]"
  }

  function SchemeLength(s: string): nat {
    if StartsWith(s, "https://") then 8 else if StartsWith(s, "http://") then 7 else 0
  }

  /** The field values the pattern can produce (and, for the lazy groups, the simplification's assumption). */
  predicate WellFormed(f: Fields) {
    && SchemeLength(f.url) > 0 && |f.url| > SchemeLength(f.url)
    && (forall k :: 0 <= k < |f.url| ==> NotSpace(f.url[k]))
    && f.status != [] && AllDigits(f.status)
    && f.verb != [] && (forall k :: 0 <= k < |f.verb| ==> IsWordChar(f.verb[k]))
    && !Contains(f.title, "] [") && !Contains(f.ip, "] [") && ']' !in f.tech
  }

  /** Lazy group: the text up to the first `delim`, and the text after it. */
  function Field(s: string, delim: string): (r: Option<(string, string)>)
    requires delim != []
    ensures r.Some? ==> s == r.value.0 + delim + r.value.1 && !Contains(r.value.0, delim)
    ensures r.None? ==> !Contains(s, delim)
  {
    match IndexOf(s, delim)
    case None => None
    case Some(a) =>
      assert s == s[..a] + delim + s[a + |delim|..];
      assert !Contains(s[..a], delim) by {
        if Contains(s[..a], delim) {
          OccursInPrefix(s, a, delim, IndexOf(s[..a], delim).value);
        }
      }
      Some((s[..a], s[a + |delim|..]))
  }

  /** No proper prefix of `d` is also a suffix of it, so two occurrences never overlap. */
  predicate NoBorder(d: string) {
    forall m :: 0 < m < |d| ==> d[..m] != d[|d| - m..]
  }

  /** The first `delim` after a text free of it is the one right after that text. */
  lemma FieldOf(a: string, delim: string, b: string)
    requires delim != [] && NoBorder(delim) && !Contains(a, delim)
    ensures Field(a + delim + b, delim) == Some((a, b))
  {
    var s := a + delim + b;
    assert OccursAt(s, delim, |a|);
    forall j: nat | j < |a| ensures !OccursAt(s, delim, j) {
      if j + |delim| <= |a| {
        assert s[j..j + |delim|] == a[j..j + |delim|];
        assert !OccursAt(a, delim, j);
      } else {
        NoOverlap(s, delim, j, |a|);
      }
    }
    assert IndexOf(s, delim) == Some(|a|);
    assert s[..|a|] == a && s[|a| + |delim|..] == b;
  }

  /** An occurrence of a border-free `d` rules out any other occurrence that overlaps it from the left. */
  lemma NoOverlap(s: string, d: string, j: nat, i: nat)
    requires NoBorder(d) && OccursAt(s, d, i) && j < i < j + |d|
    ensures !OccursAt(s, d, j)
  {
    var m := j + |d| - i;
    assert d[..m] != d[|d| - m..];
    assert s[i..j + |d|] == d[..m];
    if j + |d| <= |s| {
      assert s[j..j + |d|][|d| - m..] == s[i..j + |d|];
    }
  }

  lemma Borders()
    ensures NoBorder("] [") && NoBorder("]")
  {
    var d := "] [";
    forall m | 0 < m < |d| ensures d[..m] != d[|d| - m..] {
      assert d[..m][0] == ']';
      assert d[|d| - m..][0] == d[|d| - m];
    }
  }

  /** The first three groups: the URL (a greedy run of non-space characters), the status digits and the verb. */
  function MatchHead(s: string): (r: Option<(string, string, string, string)>)
    ensures r.Some? ==> var (url, status, verb, _) := r.value;
      && SchemeLength(url) > 0 && |url| > SchemeLength(url)
      && (forall k :: 0 <= k < |url| ==> NotSpace(url[k]))
      && status != [] && AllDigits(status)
      && verb != [] && (forall k :: 0 <= k < |verb| ==> IsWordChar(verb[k]))
  {
    var n := SchemeLength(s);
    if n == 0 then None
    else
      var (url, s1) := Token(s, NotSpace);
      if |url| <= n || !StartsWith(s1, " [") then None
      else
        match MatchStatusVerb(s1[2..])
        case None => None
        case Some((status, verb, s3)) =>
          assert SchemeLength(url) == n by {
            assert s[..7] == url[..7];
            assert |url| >= 8 ==> s[..8] == url[..8];
          }
          Some((url, status, verb, s3))
  }

  /** The status digits and the verb, each followed by `] [`. */
  function MatchStatusVerb(s: string): (r: Option<(string, string, string)>)
    ensures r.Some? ==> var (status, verb, _) := r.value;
      && status != [] && AllDigits(status)
      && verb != [] && (forall k :: 0 <= k < |verb| ==> IsWordChar(verb[k]))
  {
    var (status, s2) := Token(s, IsDigit);
    if status == [] || !StartsWith(s2, "] [") then None
    else
      var (verb, s3) := Token(s2[3..], IsWordChar);
      if verb == [] || !StartsWith(s3, "] [") then None
      else Some((status, verb, s3[3..]))
  }

  /** The three lazy groups: up to the next `] [`, again, then up to the next `]`. */
  function MatchTail(s: string): (r: Option<(string, string, string, string)>)
    ensures r.Some? ==> !Contains(r.value.0, "] [") && !Contains(r.value.1, "] [") && ']' !in r.value.2
  {
    match Field(s, "] [")
    case None => None
    case Some((title, s4)) =>
      match Field(s4, "] [")
      case None => None
      case Some((ip, s5)) =>
        match Field(s5, "]")
        case None => None
        case Some((tech, rest)) =>
          assert ']' !in tech by { ContainsChar(tech, ']'); }
          Some((title, ip, tech, rest))
  }

  /** The pattern tried at the start of `s` (`re.match`), with the simplified lazy groups. */
  function MatchFields(s: string): (r: Option<Fields>)
    ensures r.Some? ==> WellFormed(r.value)
  {
    match MatchHead(s)
    case None => None
    case Some((url, status, verb, s3)) =>
      match MatchTail(s3)
      case None => None
      case Some((title, ip, tech, rest)) =>
        Some(Fields(url, status, verb, title, ip, tech))
  }

  lemma MatchHeadRender(url: string, status: string, verb: string, s3: string)
    requires WellFormed(Fields(url, status, verb, "", "", ""))
    ensures MatchHead(url + " [" + status + "] [" + verb + "] [" + s3) == Some((url, status, verb, s3))
  {
    var s1 := " [" + (status + "] [" + verb + "] [" + s3);
    var s := url + s1;
    assert s == url + " [" + status + "] [" + verb + "] [" + s3;
    assert SchemeLength(s) == SchemeLength(url) by {
      assert s[..|url|] == url;
    }
    assert IsSpace(s1[0]);
    TokenOf(url, s1, NotSpace);
    assert StartsWith(s1, " [") && s1[2..] == status + "] [" + verb + "] [" + s3;
    MatchStatusVerbRender(status, verb, s3);
    MatchHeadOf(s, url, s1, status, verb, s3);
  }

  /** `MatchHead` read off from the results of its three steps. */
  lemma MatchHeadOf(s: string, url: string, s1: string, status: string, verb: string, s3: string)
    requires SchemeLength(s) == SchemeLength(url) > 0 && |url| > SchemeLength(url)
    requires Token(s, NotSpace) == (url, s1)
    requires StartsWith(s1, " [") && MatchStatusVerb(s1[2..]) == Some((status, verb, s3))
    ensures MatchHead(s) == Some((url, status, verb, s3))
  {
  }

  lemma MatchStatusVerbRender(status: string, verb: string, s3: string)
    requires status != [] && AllDigits(status)
    requires verb != [] && forall k :: 0 <= k < |verb| ==> IsWordChar(verb[k])
    ensures MatchStatusVerb(status + "] [" + verb + "] [" + s3) == Some((status, verb, s3))
  {
    var s2' := "] [" + s3;
    var s2 := "] [" + verb + s2';
    assert status + "] [" + verb + "] [" + s3 == status + s2;
    TokenOf(status, s2, IsDigit);
    assert StartsWith(s2, "] [") && s2[3..] == verb + s2';
    TokenOf(verb, s2', IsWordChar);
    assert StartsWith(s2', "] [") && s2'[3..] == s3;
  }

  lemma MatchTailRender(title: string, ip: string, tech: string, rest: string)
    requires !Contains(title, "] [") && !Contains(ip, "] [") && ']' !in tech
    ensures MatchTail(title + "] [" + ip + "] [" + tech + "]" + rest) == Some((title, ip, tech, rest))
  {
    Borders();
    var s5 := tech + "]" + rest;
    var s4 := ip + "] [" + s5;
    assert title + "] [" + ip + "] [" + tech + "]" + rest == title + "] [" + s4;
    FieldOf(title, "] [", s4);
    FieldOf(ip, "] [", s5);
    assert !Contains(tech, "]") by { ContainsChar(tech, ']'); }
    FieldOf(tech, "]", rest);
  }

  /** A rendered record followed by anything is matched back to the same fields. */
  lemma MatchRender(f: Fields, rest: string)
    requires WellFormed(f)
    ensures MatchFields(Render(f) + rest) == Some(f)
  {
    var tail := f.title + "] [" + f.ip + "] [" + f.tech + "]" + rest;
    assert Render(f) + rest == f.url + " [" + f.status + "] [" + f.verb + "] [" + tail;
    MatchHeadRender(f.url, f.status, f.verb, tail);
    MatchTailRender(f.title, f.ip, f.tech, rest);
  }

  /** `re.search`: the match at the leftmost position where the pattern matches. */
  function SearchFrom(line: string, i: nat): (r: Option<Fields>)
    requires i <= |line|
    ensures r.Some? ==> WellFormed(r.value)
    decreases |line| - i
  {
    match MatchFields(line[i..])
    case Some(f) => Some(f)
    case None =>
      if i == |line| then None else SearchFrom(line, i + 1)
  }

  function Search(line: string): (r: Option<Fields>)
    ensures r.Some? ==> WellFormed(r.value)
  {
    SearchFrom(line, 0)
  }

  /** A line that starts with a rendered record is found with exactly those fields. */
  lemma SearchRender(f: Fields, rest: string)
    requires WellFormed(f)
    ensures Search(Render(f) + rest) == Some(f)
  {
    var line := Render(f) + rest;
    assert line[0..] == line;
    MatchRender(f, rest);
  }

  /** `url.replace("https://", "").replace("http://", "")`: the key of a host in the result. */
  function HostKey(url: string): string {
    Replace(Replace(url, "https://", ""), "http://", "")
  }

  /** For a URL that mentions a scheme only at its start, the key is the URL without it. */
  lemma HostKeyOfUrl(scheme: string, h: string)
    requires scheme == "https://" || scheme == "http://"
    requires !Contains(h, "https://") && !Contains(h, "http://")
    ensures HostKey(scheme + h) == h
  {
    if scheme == "https://" {
      RemovePrefix("https://", h);
    } else {
      var u := "http://" + h;
      assert !Contains(u, "https://") by {
        forall j: nat | j + 8 <= |u| ensures !OccursAt(u, "https://", j) {
          if j >= 7 {
            assert u[j..j + 8] == h[j - 7..j + 1];
            assert !OccursAt(h, "https://", j - 7);
          } else if j == 0 {
            assert u[j..j + 8][4] == ':';
          } else {
            assert u[j..j + 8][0] == u[j] != 'h';
          }
        }
      }
      RemovePrefix("http://", h);
    }
  }

  // ---------------------------------------------------------------- records

  /** The record `get_httpx_data` stores for a live host. */
  datatype Host = Host(
    httpStatus: string,
    httpMethod: Option<string>,
    title: string,
    ip: string,
    techList: seq<string>,
    openPort: string,
    screen: Option<string>,
    phash: Option<string>,
    spfdmarc: Option<string>)

  /** The three collector maps, computed for the input hosts before the lines are read. */
  datatype Probes = Probes(methods: map<string, string>, spfdmarc: map<string, string>, screenshots: map<string, string>)

  /** `get_phash` of a screenshot: image numerics that are not part of this model. */
  type Phasher = string -> Option<string>

  function Lookup(m: map<string, string>, k: string): (r: Option<string>)
    ensures r.Some? <==> k in m
    ensures r.Some? ==> r.value == m[k]
  {
    if k in m then Some(m[k]) else None
  }

  /** `group(6).split(", ") if group(6) else []`: joining the list back gives the group. */
  function TechList(tech: string): (r: seq<string>)
    ensures r == [] <==> tech == ""
    ensures Join(r, ", ") == tech
  {
    if tech == "" then []
    else
      JoinSplit(tech, ", ");
      Split(tech, ", ")
  }

  /**
    The record of a matched line: httpx's status, title, IP and technologies;
    the collected method, screenshot and SPF/DMARC status of the host; the
    placeholder port `"xx"`; and the phash of the screenshot, `None` without one.
   */
  function Record(f: Fields, host: string, probes: Probes, phash: Phasher): (r: Host)
    ensures r.openPort == "xx"
    ensures r.screen == Lookup(probes.screenshots, host)
    ensures r.phash.Some? ==> r.screen.Some?
    ensures Join(r.techList, ", ") == f.tech
  {
    var screen := Lookup(probes.screenshots, host);
    Host(f.status, Lookup(probes.methods, host), f.title, f.ip, TechList(f.tech), "xx",
         screen, if screen.Some? then phash(screen.value) else None, Lookup(probes.spfdmarc, host))
  }

  /** The result of `re.search` on each line. */
  function Matches(lines: seq<string>): (r: seq<Option<Fields>>)
    ensures |r| == |lines| && forall k :: 0 <= k < |lines| ==> r[k] == Search(lines[k])
  {
    seq(|lines|, k requires 0 <= k < |lines| => Search(lines[k]))
  }

  /** The dictionary after assigning, line by line, the record of each match to its host. */
  function Merge(ms: seq<Option<Fields>>, probes: Probes, phash: Phasher): (r: seq<(string, Option<Host>)>)
    ensures DistinctKeys(r)
  {
    if ms == [] then []
    else
      var d := Merge(ms[..|ms| - 1], probes, phash);
      match ms[|ms| - 1]
      case None => d
      case Some(f) => Assign(d, f, probes, phash)
  }

  /** `domain_results[domain] = {...}` for one match. */
  function Assign(d: seq<(string, Option<Host>)>, f: Fields, probes: Probes, phash: Phasher): (r: seq<(string, Option<Host>)>)
    ensures DistinctKeys(d) ==> DistinctKeys(r)
  {
    Put(d, HostKey(f.url), Some(Record(f, HostKey(f.url), probes, phash)))
  }

  /** The line matched and its host key is `host`. */
  predicate Carries(m: Option<Fields>, host: string) {
    m.Some? && HostKey(m.value.url) == host
  }

  /** The index of the last line that carries `host`. */
  function LastFor(ms: seq<Option<Fields>>, host: string): (r: Option<nat>)
    ensures r.None? <==> forall k :: 0 <= k < |ms| ==> !Carries(ms[k], host)
    ensures r.Some? ==> r.value < |ms| && Carries(ms[r.value], host)
    ensures r.Some? ==> forall k :: r.value < k < |ms| ==> !Carries(ms[k], host)
  {
    if ms == [] then None
    else if Carries(ms[|ms| - 1], host) then Some(|ms| - 1)
    else
      var init := ms[..|ms| - 1];
      var r := LastFor(init, host);
      assert forall k :: 0 <= k < |init| ==> ms[k] == init[k];
      r
  }

  /**
    The dead-host filter and "last line wins": a host has an entry exactly when
    some matching line carries it, and the entry is the record of the last such
    line.
   */
  lemma {:induction false} MergeGet(ms: seq<Option<Fields>>, probes: Probes, phash: Phasher, host: string)
    ensures Get(Merge(ms, probes, phash), host) ==
      match LastFor(ms, host)
      case None => None
      case Some(k) => Some(Some(Record(ms[k].value, host, probes, phash)))
  {
    if ms != [] {
      MergeGet(ms[..|ms| - 1], probes, phash, host);
    }
  }

  /**
    `get_httpx_data`: blank output maps every input host to `None`; otherwise
    the collectors run over the input hosts and each stdout line is matched in
    order.
   */
  method GetHttpxData(domains: seq<string>, stdout: string, run: Runner, shoot: Shooter, phash: Phasher)
    returns (results: seq<(string, Option<Host>)>)
    ensures Strip(stdout) == "" ==> results == FromKeys(domains, None)
    ensures Strip(stdout) != "" ==>
      results == Merge(Matches(Split(stdout, "\n")), Probes(MethodsMap(domains, run), SpfDmarcMap(domains, run), ScreenshotMap(domains, shoot)), phash)
  {
    if Strip(stdout) == "" {
      return FromKeys(domains, None);
    }
    var probes := Collect(domains, run, shoot);
    results := MergeLines(Split(stdout, "\n"), probes, phash);
  }

  /** The three collectors, run over the input hosts before the lines are read. */
  method Collect(domains: seq<string>, run: Runner, shoot: Shooter) returns (probes: Probes)
    ensures probes == Probes(MethodsMap(domains, run), SpfDmarcMap(domains, run), ScreenshotMap(domains, shoot))
  {
    var methods := GetMethodsParallel(domains, run);
    var spfdmarc := GetSpfDmarcParallel(domains, run);
    var screenshots := TakeScreenshotsParallel(Many(domains), shoot);
    probes := Probes(methods, spfdmarc, screenshots);
  }

  /** The loop over the lines of httpx's output: each matching line (re)assigns its host's record. */
  method MergeLines(lines: seq<string>, probes: Probes, phash: Phasher) returns (results: seq<(string, Option<Host>)>)
    ensures results == Merge(Matches(lines), probes, phash)
  {
    ghost var ms := Matches(lines);
    results := [];
    for i := 0 to |lines|
      invariant results == Merge(ms[..i], probes, phash)
    {
      MergeStep(ms, i, probes, phash);
      var m := Search(lines[i]);
      assert m == ms[i];
      if m.Some? {
        results := Assign(results, m.value, probes, phash);
      }
    }
    assert ms[..|ms|] == ms;
  }

  /** One more line, as `Merge` reads it. */
  lemma MergeStep(ms: seq<Option<Fields>>, i: nat, probes: Probes, phash: Phasher)
    requires i < |ms|
    ensures Merge(ms[..i + 1], probes, phash) == match ms[i]
      case None => Merge(ms[..i], probes, phash)
      case Some(f) => Assign(Merge(ms[..i], probes, phash), f, probes, phash)
  {
    assert ms[..i + 1][..i] == ms[..i];
  }
}
