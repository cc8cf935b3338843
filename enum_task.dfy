/**
  The probes of the enumeration pipeline that run one command per host:
  `execute_command`, the SPF/DMARC status, the HTTP methods allowed by
  `OPTIONS`, and the collectors that run them for every input host.

  Every external program (dig, curl, the headless browser) is a parameter:
  `Runner` says how each command ends, `Shooter` what screenshot the browser
  takes of a host.
 */
module EnumTask {
  import opened Wrappers
  import opened Text

  /** A process the code starts: an argument vector, or a line for the shell (`shell=True`). */
  datatype Command = Argv(args: seq<string>) | Shell(line: string)

  /** How `subprocess.run` ended: normally with its stdout, with `TimeoutExpired`, or with another exception. */
  datatype Outcome = Completed(stdout: string) | TimedOut | Raised(message: string)

  type Runner = Command -> Outcome

  /** The base64 screenshot of `http://<host>`, or `None` when the browser fails. */
  type Shooter = string -> Option<string>

  /** A value, or the message of the exception raised while computing it. */
  datatype Attempt = Ok(value: string) | Failed(message: string)

  /**
    `execute_command`: the stripped stdout split into lines; no lines at all when
    the output is blank, on a timeout and on any other exception.
   */
  function ExecuteCommand(o: Outcome): (r: seq<string>)
    ensures r != [""]
    ensures r == [] <==> !o.Completed? || Strip(o.stdout) == ""
    ensures o.Completed? ==> Join(r, "\n") == Strip(o.stdout)
    ensures forall k :: 0 <= k < |r| ==> '\n' !in r[k]
  {
    match o
    case Completed(out) =>
      var s := Strip(out);
      if s == "" then []
      else
        var r := Split(s, "\n");
        JoinSplit(s, "\n");
        assert forall k :: 0 <= k < |r| ==> '\n' !in r[k] by {
          forall k | 0 <= k < |r| ensures '\n' !in r[k] { ContainsChar(r[k], '\n'); }
        }
        r
    case TimedOut => []
    case Raised(_) => []
  }

  // ---------------------------------------------------------------- SPF / DMARC

  /** The heavy check mark followed by the emoji variation selector. */
  const Tick: string := "\U{2714}\U{FE0F}"
  /** The cross mark. */
  const Cross: string := "\U{274C}"

  function Mark(ok: bool): string {
    if ok then Tick else Cross
  }

  /** `f"{spf_check} {dmarc_check}"`: two marks separated by one space; each mark says which check passed. */
  function StatusText(spf: bool, dmarc: bool): (r: string)
    ensures Split(r, " ") == [Mark(spf), Mark(dmarc)]
    ensures StartsWith(r, Tick) <==> spf
    ensures EndsWith(r, Tick) <==> dmarc
  {
    var r := Mark(spf) + " " + Mark(dmarc);
    assert Join([Mark(spf), Mark(dmarc)], " ") == r;
    SplitJoin([Mark(spf), Mark(dmarc)], ' ');
    assert Cross[0] != Tick[0] && Cross[0] != Tick[1];
    r
  }

  /** The TXT records `dig TXT <query> +short` prints, one per line. */
  function DnsTxt(run: Runner, query: string): seq<string> {
    ExecuteCommand(run(Argv(["dig", "TXT", query, "+short"])))
  }

  predicate AnyContains(records: seq<string>, pat: string) {
    exists k :: 0 <= k < |records| && Contains(records[k], pat)
  }

  /**
    `get_spfdmarc`: the first mark is a tick exactly when some TXT record of the
    host itself contains `v=spf1`, the second exactly when some TXT record of
    `_dmarc.<host>` contains `v=DMARC1`.
   */
  function GetSpfDmarc(domain: string, run: Runner): (r: string)
    ensures StartsWith(r, Tick) <==> AnyContains(DnsTxt(run, domain), "v=spf1")
    ensures EndsWith(r, Tick) <==> AnyContains(DnsTxt(run, "_dmarc." + domain), "v=DMARC1")
    ensures Split(r, " ") == [Mark(AnyContains(DnsTxt(run, domain), "v=spf1")), Mark(AnyContains(DnsTxt(run, "_dmarc." + domain), "v=DMARC1"))]
  {
    StatusText(AnyContains(DnsTxt(run, domain), "v=spf1"), AnyContains(DnsTxt(run, "_dmarc." + domain), "v=DMARC1"))
  }

  // ---------------------------------------------------------------- HTTP methods

  /** The curl pipeline that prints the `Allow:` header of an `OPTIONS` request (timeout 1 second). */
  function AllowCommand(scheme: string, domain: string): string {
    "curl --max-time 1 -s -X OPTIONS -I " + scheme + "://" + domain + " | grep -i 'allow:' | grep -oPi '(?<=allow: ).*'"
  }

  /** `run_command` inside `get_method`: stripped stdout, `""` on a timeout; any other exception propagates. */
  function RunCommand(o: Outcome): (r: Attempt)
    ensures r.Failed? <==> o.Raised?
  {
    match o
    case Completed(out) => Ok(Strip(out))
    case TimedOut => Ok("")
    case Raised(m) => Failed(m)
  }

  /**
    The result string of `get_method`: `"https: X"` before `"http: Y"`, each
    only when non-empty, joined by `" | "`; `"No methods found"` exactly when
    both are empty.
   */
  function FormatMethods(https: string, http: string): (r: string)
    ensures r == "No methods found" <==> https == "" && http == ""
    ensures https != "" ==> StartsWith(r, "https: " + https)
    ensures http != "" ==> EndsWith(r, "http: " + http)
    ensures https != "" && http != "" ==> Contains(r, " | ")
    ensures https != "" && http == "" ==> r == "https: " + https
    ensures https == "" && http != "" ==> r == "http: " + http
    ensures https != "" && http != "" ==> r == "https: " + https + " | " + "http: " + http
  {
    var parts := (if https != "" then ["https: " + https] else []) + (if http != "" then ["http: " + http] else []);
    var r := if parts == [] then "No methods found" else Join(parts, " | ");
    assert r != "No methods found" || parts == [] by {
      if parts != [] {
        assert r[0] == 'h';
      }
    }
    assert https != "" && http != "" ==> Contains(r, " | ") by {
      if https != "" && http != "" {
        var a := "https: " + https;
        assert r == a + " | " + ("http: " + http);
        assert OccursAt(r, " | ", |a|);
        assert IndexOf(r, " | ").Some?;
      }
    }
    r
  }

  /**
    `get_method`: the https probe, then the http probe; an exception of either
    (https first) is the result's failure.
   */
  function GetMethod(domain: string, run: Runner): (r: Attempt)
    ensures r.Failed? <==> run(Shell(AllowCommand("https", domain))).Raised? || run(Shell(AllowCommand("http", domain))).Raised?
    ensures r.Ok? ==> r.value == FormatMethods(RunCommand(run(Shell(AllowCommand("https", domain)))).value,
                                               RunCommand(run(Shell(AllowCommand("http", domain)))).value)
  {
    match RunCommand(run(Shell(AllowCommand("https", domain))))
    case Failed(m) => Failed(m)
    case Ok(https) =>
      match RunCommand(run(Shell(AllowCommand("http", domain))))
      case Failed(m) => Failed(m)
      case Ok(http) => Ok(FormatMethods(https, http))
  }

  /** What a collector stores for one host: the value, or `"Error: <message>"`. */
  function Cell(a: Attempt): string {
    match a
    case Ok(v) => v
    case Failed(m) => "Error: " + m
  }

  // ---------------------------------------------------------------- collectors

  /** `get_methods_parallel`, run one host after another: one entry per distinct input host. */
  method GetMethodsParallel(domains: seq<string>, run: Runner) returns (methods: map<string, string>)
    ensures methods.Keys == set d | d in domains
    ensures forall d :: d in methods ==> methods[d] == Cell(GetMethod(d, run))
    ensures methods == MethodsMap(domains, run)
  {
    methods := map[];
    for i := 0 to |domains|
      invariant methods.Keys == set d | d in domains[..i]
      invariant forall d :: d in methods ==> methods[d] == Cell(GetMethod(d, run))
    {
      assert domains[..i + 1] == domains[..i] + [domains[i]];
      methods := methods[domains[i] := Cell(GetMethod(domains[i], run))];
    }
    assert domains[..|domains|] == domains;
  }

  /**
    `get_spfdmarc_parallel`: one entry per distinct input host. `get_spfdmarc`
    catches every exception of its commands, so no entry is an error.
   */
  method GetSpfDmarcParallel(domains: seq<string>, run: Runner) returns (results: map<string, string>)
    ensures results.Keys == set d | d in domains
    ensures forall d :: d in results ==> results[d] == GetSpfDmarc(d, run)
    ensures results == SpfDmarcMap(domains, run)
  {
    results := map[];
    for i := 0 to |domains|
      invariant results.Keys == set d | d in domains[..i]
      invariant forall d :: d in results ==> results[d] == GetSpfDmarc(d, run)
    {
      assert domains[..i + 1] == domains[..i] + [domains[i]];
      results := results[domains[i] := GetSpfDmarc(domains[i], run)];
    }
    assert domains[..|domains|] == domains;
  }

  /** The `urls` argument of `take_screenshots_parallel`: a bare string or a list. */
  datatype Urls = One(url: string) | Many(urls: seq<string>)

  function UrlList(u: Urls): (r: seq<string>)
    ensures u.One? ==> r == [u.url]
  {
    match u
    case One(url) => [url]
    case Many(urls) => urls
  }

  /**
    `take_screenshots_parallel`: only hosts with a non-empty screenshot get an
    entry, so the keys are a subset of the inputs. `take_screenshot_base64`
    catches every exception, so no entry is an error.
   */
  method TakeScreenshotsParallel(urls: Urls, shoot: Shooter) returns (results: map<string, string>)
    ensures forall u :: u in results <==> u in UrlList(urls) && shoot(u).Some? && shoot(u).value != ""
    ensures forall u :: u in results ==> shoot(u) == Some(results[u])
    ensures results == ScreenshotMap(UrlList(urls), shoot)
  {
    var list := UrlList(urls);
    results := map[];
    for i := 0 to |list|
      invariant forall u :: u in results <==> u in list[..i] && shoot(u).Some? && shoot(u).value != ""
      invariant forall u :: u in results ==> shoot(u) == Some(results[u])
    {
      assert list[..i + 1] == list[..i] + [list[i]];
      var screenshot := shoot(list[i]);
      if screenshot.Some? && screenshot.value != "" {
        results := results[list[i] := screenshot.value];
      }
    }
    assert list[..|list|] == list;
  }

  /** The maps the three collectors return, as values. */
  function MethodsMap(domains: seq<string>, run: Runner): map<string, string> {
    map d | d in domains :: Cell(GetMethod(d, run))
  }

  function SpfDmarcMap(domains: seq<string>, run: Runner): map<string, string> {
    map d | d in domains :: GetSpfDmarc(d, run)
  }

  function ScreenshotMap(urls: seq<string>, shoot: Shooter): map<string, string> {
    map u | u in urls && shoot(u).Some? && shoot(u).value != "" :: shoot(u).value
  }
}
