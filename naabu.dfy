/**
  `scan_naabu_fingerprint`: naabu's output lines that start with
  `(\d+\.\d+\.\d+\.\d+):(\d+)` are grouped by address, each port appended as an
  integer in output order (duplicates kept, nothing sorted).

  naabu itself is a parameter: `Scanner` says how the scan ends given the
  contents of the address file.
 */
module Naabu {
  import opened Wrappers
  import opened Text
  import opened EnumTask

  /** How naabu ends when `ips.txt` holds the given text. */
  type Scanner = string -> Outcome

  /** The ports found per address. */
  type PortMap = map<string, seq<nat>>

  /** The contents written to `ips.txt`: one address per line and a final line break. */
  function IpsFile(ips: seq<string>): (r: string)
    ensures r == Join(ips, "\n") + "\n"
  {
    Join(ips, "\n") + "\n"
  }

  /** A non-empty run of ASCII digits, then the character `sep`, then the rest. */
  function DigitsThen(s: string, sep: char): (r: Option<(string, string)>)
    ensures r.Some? ==> r.value.0 != [] && AllDigits(r.value.0) && s == r.value.0 + [sep] + r.value.1
  {
    var (d, rest) := Token(s, IsDigit);
    if d != [] && rest != [] && rest[0] == sep then
      assert rest == [sep] + rest[1..];
      Some((d, rest[1..]))
    else None
  }

  /** A run of digits taken whole, followed by a character that is not a digit, is found again. */
  lemma DigitsThenOf(d: string, sep: char, rest: string)
    requires d != [] && AllDigits(d) && !IsDigit(sep)
    ensures DigitsThen(d + [sep] + rest, sep) == Some((d, rest))
  {
    TokenOf(d, [sep] + rest, IsDigit);
    assert d + [sep] + rest == d + ([sep] + rest);
    assert ([sep] + rest)[1..] == rest;
  }

  /** The address part `\d+\.\d+\.\d+\.\d+` and what follows its `:`. */
  function Address(s: string): (r: Option<(string, string)>)
    ensures r.Some? ==> s == r.value.0 + ":" + r.value.1
  {
    match DigitsThen(s, '.')
    case None => None
    case Some((a, r1)) =>
      match DigitsThen(r1, '.')
      case None => None
      case Some((b, r2)) =>
        match DigitsThen(r2, '.')
        case None => None
        case Some((c, r3)) =>
          match DigitsThen(r3, ':')
          case None => None
          case Some((d, r4)) =>
            assert s == a + "." + b + "." + c + "." + d + ":" + r4;
            Some((a + "." + b + "." + c + "." + d, r4))
  }

  /**
    `re.match(r"(\d+\.\d+\.\d+\.\d+):(\d+)", line)`: the address group and
    `int` of the port group, when the line starts with such a pair.
   */
  function ParseIpPort(line: string): (r: Option<(string, nat)>)
    ensures r.Some? ==> StartsWith(line, r.value.0 + ":")
  {
    match Address(line)
    case None => None
    case Some((ip, rest)) =>
      var (port, _) := Token(rest, IsDigit);
      if port == [] then None else Some((ip, DecimalValue(port)))
  }

  /** Four digit runs joined by dots and followed by `:` are read back as the address. */
  lemma AddressOf(a: string, b: string, c: string, d: string, rest: string)
    requires a != [] && AllDigits(a) && b != [] && AllDigits(b)
    requires c != [] && AllDigits(c) && d != [] && AllDigits(d)
    ensures Address(a + "." + b + "." + c + "." + d + ":" + rest) == Some((a + "." + b + "." + c + "." + d, rest))
  {
    var r3 := d + ":" + rest;
    var r2 := c + "." + r3;
    var r1 := b + "." + r2;
    assert a + "." + b + "." + c + "." + d + ":" + rest == a + "." + r1;
    DigitsThenOf(a, '.', r1);
    DigitsThenOf(b, '.', r2);
    DigitsThenOf(c, '.', r3);
    DigitsThenOf(d, ':', rest);
  }

  /** A line `a.b.c.d:port` followed by anything but a digit parses back to the address and the port. */
  lemma ParseIpPortOf(a: string, b: string, c: string, d: string, port: nat, rest: string)
    requires a != [] && AllDigits(a) && b != [] && AllDigits(b)
    requires c != [] && AllDigits(c) && d != [] && AllDigits(d)
    requires rest == [] || !IsDigit(rest[0])
    ensures ParseIpPort(a + "." + b + "." + c + "." + d + ":" + Decimal(port) + rest) == Some((a + "." + b + "." + c + "." + d, port))
  {
    var ip := a + "." + b + "." + c + "." + d;
    assert ip + ":" + Decimal(port) + rest == ip + ":" + (Decimal(port) + rest);
    AddressOf(a, b, c, d, Decimal(port) + rest);
    TokenOf(Decimal(port), rest, IsDigit);
    DecimalRoundTrip(port);
  }

  /** The match of each line. */
  function Parsed(lines: seq<string>): (r: seq<Option<(string, nat)>>)
    ensures |r| == |lines| && forall k :: 0 <= k < |lines| ==> r[k] == ParseIpPort(lines[k])
  {
    seq(|lines|, k requires 0 <= k < |lines| => ParseIpPort(lines[k]))
  }

  /** The ports that one parsed line contributes to the address `ip`. */
  function LinePorts(m: Option<(string, nat)>, ip: string): (r: seq<nat>)
    ensures |r| <= 1
  {
    match m
    case Some((a, p)) => if a == ip then [p] else []
    case None => []
  }

  /** `ip_ports.get(ip, [])`. */
  function Ports(m: PortMap, ip: string): seq<nat> {
    if ip in m then m[ip] else []
  }

  /** `ip_ports` after reading the parsed lines in order. */
  function Grouped(ms: seq<Option<(string, nat)>>): PortMap {
    if ms == [] then map[]
    else
      var m := Grouped(ms[..|ms| - 1]);
      match ms[|ms| - 1]
      case None => m
      case Some((ip, port)) => m[ip := Ports(m, ip) + [port]]
  }

  /** One more line appends its port, if it has one for `ip`, to the ports of `ip`. */
  lemma GroupedSnoc(ms: seq<Option<(string, nat)>>, m: Option<(string, nat)>, ip: string)
    ensures Ports(Grouped(ms + [m]), ip) == Ports(Grouped(ms), ip) + LinePorts(m, ip)
  {
    assert (ms + [m])[..|ms|] == ms;
  }

  /**
    The ports of an address over two runs of lines are its ports over the
    first followed by its ports over the second: output order is kept and
    repeated ports are not merged.
   */
  lemma {:induction false} GroupedAppend(a: seq<Option<(string, nat)>>, b: seq<Option<(string, nat)>>, ip: string)
    ensures Ports(Grouped(a + b), ip) == Ports(Grouped(a), ip) + Ports(Grouped(b), ip)
  {
    if b == [] {
      assert a + b == a;
    } else {
      var init := b[..|b| - 1];
      var m := b[|b| - 1];
      assert a + b == (a + init) + [m];
      assert b == init + [m];
      GroupedAppend(a, init, ip);
      GroupedSnoc(a + init, m, ip);
      GroupedSnoc(init, m, ip);
      Regroup(Ports(Grouped(a + b), ip), Ports(Grouped(a + init), ip), LinePorts(m, ip),
              Ports(Grouped(a), ip), Ports(Grouped(init), ip), Ports(Grouped(b), ip));
    }
  }

  /** `x == (a + i) + l` and `b == i + l` give `x == a + b`. */
  lemma Regroup(x: seq<nat>, y: seq<nat>, l: seq<nat>, a: seq<nat>, i: seq<nat>, b: seq<nat>)
    requires x == y + l && y == a + i && b == i + l
    ensures x == a + b
  {
  }

  /** An address has no ports exactly when no line gives it one. */
  lemma {:induction false} GroupedKeys(ms: seq<Option<(string, nat)>>, ip: string)
    ensures Ports(Grouped(ms), ip) == [] <==> forall k :: 0 <= k < |ms| ==> LinePorts(ms[k], ip) == []
  {
    if ms != [] {
      var init := ms[..|ms| - 1];
      GroupedKeys(init, ip);
      assert ms == init + [ms[|ms| - 1]];
      GroupedSnoc(init, ms[|ms| - 1], ip);
      assert forall k :: 0 <= k < |init| ==> ms[k] == init[k];
    }
  }

  /** What `scan_naabu_fingerprint` returns for the way naabu ended: the grouping, `{}` on a timeout, `None` on another exception. */
  function ScanResult(o: Outcome): (r: Option<PortMap>)
    ensures r.None? <==> o.Raised?
    ensures o.TimedOut? ==> r == Some(map[])
  {
    match o
    case Completed(out) => Some(Grouped(Parsed(SplitLines(out))))
    case TimedOut => Some(map[])
    case Raised(_) => None
  }

  /** `scan_naabu_fingerprint`: run naabu on the address file and group its output lines. */
  method ScanNaabu(ips: seq<string>, scan: Scanner) returns (r: Option<PortMap>)
    ensures r == ScanResult(scan(IpsFile(ips)))
  {
    var o := scan(IpsFile(ips));
    match o {
      case TimedOut => r := Some(map[]);
      case Raised(_) => r := None;
      case Completed(out) =>
        var ipPorts := GroupLines(SplitLines(out));
        r := Some(ipPorts);
    }
  }

  /** The loop over `result.stdout.splitlines()` filling `ip_ports`. */
  method GroupLines(lines: seq<string>) returns (ipPorts: PortMap)
    ensures ipPorts == Grouped(Parsed(lines))
  {
    ghost var ms := Parsed(lines);
    ipPorts := map[];
    for i := 0 to |lines|
      invariant ipPorts == Grouped(ms[..i])
    {
      GroupedStep(ms, i);
      var m := ParseIpPort(lines[i]);
      if m.Some? {
        var (ip, port) := m.value;
        ghost var prev := ipPorts;
        if ip !in ipPorts {
          ipPorts := ipPorts[ip := []];
        }
        ghost var mid := ipPorts;
        ipPorts := ipPorts[ip := ipPorts[ip] + [port]];
        AppendPort(prev, mid, ipPorts, ip, port);
      }
    }
    assert ms[..|ms|] == ms;
  }

  /** One more parsed line, as `Grouped` reads it. */
  lemma GroupedStep(ms: seq<Option<(string, nat)>>, i: nat)
    requires i < |ms|
    ensures Grouped(ms[..i + 1]) == match ms[i]
      case None => Grouped(ms[..i])
      case Some((ip, port)) => Grouped(ms[..i])[ip := Ports(Grouped(ms[..i]), ip) + [port]]
  {
    assert ms[..i + 1][..i] == ms[..i];
  }

  /** Creating the list when the address is new and then appending is appending to `get(ip, [])`. */
  lemma AppendPort(prev: PortMap, mid: PortMap, after: PortMap, ip: string, port: nat)
    requires mid == if ip in prev then prev else prev[ip := []]
    requires ip in mid && after == mid[ip := mid[ip] + [port]]
    ensures after == prev[ip := Ports(prev, ip) + [port]]
  {
  }

  /** `",".join(map(str, ports))`. */
  function PortsText(ports: seq<nat>): (r: string)
    ensures r == "" <==> ports == []
  {
    var r := Join(seq(|ports|, k requires 0 <= k < |ports| => Decimal(ports[k])), ",");
    assert ports != [] ==> r != "" by {
      if ports != [] {
        var q := seq(|ports|, k requires 0 <= k < |ports| => Decimal(ports[k]));
        SplitJoinDigits(q);
      }
    }
    r
  }

  /** Digit strings joined with `,` split back into themselves. */
  lemma SplitJoinDigits(q: seq<string>)
    requires q != [] && forall k :: 0 <= k < |q| ==> q[k] != [] && AllDigits(q[k])
    ensures Split(Join(q, ","), ",") == q
    ensures Join(q, ",") != ""
  {
    forall k | 0 <= k < |q| ensures ',' !in q[k] {
      assert forall j :: 0 <= j < |q[k]| ==> q[k][j] != ',';
    }
    SplitJoin(q, ',');
    assert |Join(q, ",")| >= |q[0]|;
  }

  /** Splitting the port text on `,` and reading each piece with `int` gives the ports back. */
  lemma PortsTextRoundTrip(ports: seq<nat>)
    requires ports != []
    ensures var pieces := Split(PortsText(ports), ",");
      |pieces| == |ports| && forall k :: 0 <= k < |ports| ==> AllDigits(pieces[k]) && DecimalValue(pieces[k]) == ports[k]
  {
    var q := seq(|ports|, k requires 0 <= k < |ports| => Decimal(ports[k]));
    SplitJoinDigits(q);
    forall k | 0 <= k < |ports| ensures DecimalValue(q[k]) == ports[k] {
      DecimalRoundTrip(ports[k]);
    }
  }
}
