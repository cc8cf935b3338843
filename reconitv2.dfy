/**
  The second recon shell: how the HTML report normalises the method, tech and
  port cells of a `domain_details` row, subdomain enumeration, the `list`
  command's filter parser and query builder, the `rm`, `add_com` and
  `add_program` commands on the tables, and the wildcard expansion of `add`.
 */
module ReconitV2 {
  import opened Wrappers
  import opened Text
  import opened Order
  import opened Dict
  import opened Store
  import opened EnumTask
  import Naabu
  import Httpx
  import Pipeline
  import opened ListingSql

  // ---------------------------------------------------------------- report cells

  /** The nine request methods the report recognises. */
  const ValidHttpMethods: set<string> := {"GET", "POST", "HEAD", "OPTIONS", "TRACE", "PUT", "DELETE", "PATCH", "CONNECT"}

  /** Python `str(v)` on a nullable text column: NULL prints as `"None"`. */
  function PyStr(v: Option<string>): (r: string)
    ensures v.Some? ==> r == v.value
    ensures v.None? ==> r == "None"
  {
    match v
    case None => "None"
    case Some(s) => s
  }

  /** `method_cleaned`: the text after the last `:`, or all of it when there is none, stripped. */
  function CleanedMethods(s: string): string {
    if Contains(s, ":") then Strip(LastPiece(s, ':')) else Strip(s)
  }

  /** `s.split(c)[-1]`. */
  function LastPiece(s: string, c: char): string {
    var p := Split(s, [c]);
    p[|p| - 1]
  }

  /** `methods`: the comma-separated pieces of the cleaned text that are not blank, stripped and upper-cased. */
  function MethodWords(cleaned: string): seq<string> {
    UpperWords(Split(cleaned, ","))
  }

  /** `[m.strip().upper() for m in pieces if m.strip()]` */
  function UpperWords(pieces: seq<string>): seq<string> {
    if pieces == [] then []
    else
      var w := Strip(pieces[0]);
      if w == "" then UpperWords(pieces[1..]) else [Upper(w)] + UpperWords(pieces[1..])
  }

  /** `piece` contributes the word `w`: it is not blank, and `w` is it stripped and upper-cased. */
  predicate Kept(piece: string, w: string) {
    Strip(piece) != "" && w == Upper(Strip(piece))
  }

  /** A word is a method word exactly when some non-blank piece gives it. */
  lemma {:induction false} UpperWordsMembers(pieces: seq<string>)
    ensures forall w :: w in UpperWords(pieces) <==> exists k :: 0 <= k < |pieces| && Kept(pieces[k], w)
  {
    if pieces != [] {
      UpperWordsMembers(pieces[1..]);
      forall w ensures w in UpperWords(pieces) <==> exists k :: 0 <= k < |pieces| && Kept(pieces[k], w) {
        UpperWordsCons(pieces, w);
        ExistsShift(pieces, (p: string) => Kept(p, w));
      }
    }
  }

  /** The first piece gives its word, then the rest give theirs. */
  lemma UpperWordsCons(pieces: seq<string>, w: string)
    requires pieces != []
    ensures w in UpperWords(pieces) <==> Kept(pieces[0], w) || w in UpperWords(pieces[1..])
  {
  }

  /** Some element satisfies `P` exactly when the first does or some later one does. */
  lemma ExistsShift<T>(s: seq<T>, P: T -> bool)
    requires s != []
    ensures (exists k :: 0 <= k < |s| && P(s[k])) <==> P(s[0]) || exists k :: 0 <= k < |s[1..]| && P(s[1..][k])
  {
    if exists k :: 0 <= k < |s| && P(s[k]) {
      var k :| 0 <= k < |s| && P(s[k]);
      if k > 0 {
        assert s[1..][k - 1] == s[k];
      }
    }
    if exists k :: 0 <= k < |s[1..]| && P(s[1..][k]) {
      var k :| 0 <= k < |s[1..]| && P(s[1..][k]);
      assert s[k + 1] == s[1..][k];
    }
  }

  /** The words keep the order of their pieces: the comprehension distributes over concatenation. */
  lemma {:induction false} UpperWordsAppend(a: seq<string>, b: seq<string>)
    ensures UpperWords(a + b) == UpperWords(a) + UpperWords(b)
  {
    if a == [] {
      assert a + b == b;
    } else {
      assert (a + b)[0] == a[0];
      assert (a + b)[1..] == a[1..] + b;
      UpperWordsAppend(a[1..], b);
    }
  }

  /** `[m for m in methods if m in VALID_HTTP_METHODS]` */
  function KeepValid(words: seq<string>): (r: seq<string>)
    ensures forall w :: w in r <==> w in words && w in ValidHttpMethods
  {
    Filter(words, (m: string) => m in ValidHttpMethods)
  }

  /** One more word is kept at the end exactly when it is valid, so the kept words keep their order. */
  lemma KeepValidSnoc(words: seq<string>, w: string)
    ensures KeepValid(words + [w]) == KeepValid(words) + (if w in ValidHttpMethods then [w] else [])
  {
    FilterAppend(words, [w], (m: string) => m in ValidHttpMethods);
    assert [w][1..] == [];
  }

  /** The words of a cleaned method text that name one of the nine methods, in their order. */
  function ValidWords(cleaned: string): (r: seq<string>)
    ensures forall k :: 0 <= k < |r| ==> r[k] in ValidHttpMethods
    ensures forall w :: w in r <==> w in MethodWords(cleaned) && w in ValidHttpMethods
  {
    var r := KeepValid(MethodWords(cleaned));
    assert forall k :: 0 <= k < |r| ==> r[k] in ValidHttpMethods by {
      forall k | 0 <= k < |r| ensures r[k] in ValidHttpMethods {
        assert r[k] in r;
      }
    }
    r
  }

  /** `valid_methods` of a method column; none for a NULL, empty or `"None"` column. */
  function MethodTags(cell: Option<string>): (r: seq<string>)
    ensures forall k :: 0 <= k < |r| ==> r[k] in ValidHttpMethods
    ensures cell.None? || cell.value == "" || cell.value == "None" ==> r == []
    ensures cell.Some? && cell.value != "" && cell.value != "None" ==>
      forall w :: w in r <==> w in MethodWords(CleanedMethods(cell.value)) && w in ValidHttpMethods
  {
    if cell.None? || cell.value == "" || cell.value == "None" then []
    else ValidWords(CleanedMethods(cell.value))
  }

  /** One `<span class='…'>` tag per value. */
  function Spans(cls: string, values: seq<string>): (r: string)
    ensures values != [] ==> r != [] && r[0] == '<'
  {
    if values == [] then ""
    else "<span class='" + cls + "'>" + values[0] + "</span>" + Spans(cls, values[1..])
  }

  /** The text of the method cell: a tag per valid method, or `"No methods found"` when there is none. */
  function MethodText(cell: Option<string>): (r: string)
    ensures r == "No methods found" <==> MethodTags(cell) == []
  {
    var tags := MethodTags(cell);
    if tags == [] then "No methods found" else Spans("method-tag", tags)
  }

  /** Text after the last `:` of a line: whatever precedes it is dropped. */
  lemma CleanedAfterLastColon(a: string, b: string)
    requires ':' !in b
    ensures CleanedMethods(a + ":" + b) == Strip(b)
  {
    var s := a + [':'] + b;
    assert a + ":" + b == s;
    assert s[|a|] == ':';
    ContainsChar(s, ':');
    SplitLast(a, ':', b);
  }

  /** The last piece of a split is the text after the last separator. */
  lemma {:induction false} SplitLast(a: string, c: char, b: string)
    requires c !in b
    ensures LastPiece(a + [c] + b, c) == b
    decreases |a|
  {
    var s := a + [c] + b;
    var i := FirstSeparator(a, c, b);
    var rest := s[i + 1..];
    SplitAt(s, c, i);
    if i == |a| {
      assert rest == b;
      SplitNone(b, c);
    } else {
      var a2 := a[i + 1..];
      assert a == a[..i + 1] + a2;
      assert s == a[..i + 1] + (a2 + [c] + b);
      assert rest == a2 + [c] + b;
      SplitLast(a2, c, b);
    }
    LastOfCons(s[..i], Split(rest, [c]), b);
  }

  /** The first separator of `a + [c] + b` lies in `a`, or is the one between `a` and `b`. */
  lemma FirstSeparator(a: string, c: char, b: string) returns (i: nat)
    ensures IndexOf(a + [c] + b, [c]) == Some(i)
    ensures i <= |a| && (i < |a| ==> a[i] == c)
  {
    var s := a + [c] + b;
    assert OccursAt(s, [c], |a|) by { assert s[|a|..|a| + 1] == [c]; }
    i := IndexOf(s, [c]).value;
    assert s[i] == c by { assert s[i..i + 1][0] == s[i]; }
  }

  lemma LastOfCons(x: string, tail: seq<string>, b: string)
    requires tail != [] && tail[|tail| - 1] == b
    ensures var p := [x] + tail; p[|p| - 1] == b
  {
  }

  /** Splitting at the first separator. */
  lemma SplitAt(s: string, c: char, i: nat)
    requires IndexOf(s, [c]) == Some(i)
    ensures Split(s, [c]) == [s[..i]] + Split(s[i + 1..], [c])
  {
  }

  /** Text without the separator splits into itself. */
  lemma SplitNone(s: string, c: char)
    requires c !in s
    ensures Split(s, [c]) == [s]
  {
    ContainsChar(s, c);
  }

  /**
    The cell shows the methods of one probe only: when the http probe answered,
    its methods, even when the https probe answered too; otherwise those of
    the https probe.
   */
  lemma MethodTagsOfGetMethod(https: string, http: string)
    requires ':' !in https && ':' !in http
    ensures http != "" ==> MethodTags(Some(FormatMethods(https, http))) == ValidWords(Strip(http))
    ensures http == "" && https != "" ==> MethodTags(Some(FormatMethods(https, http))) == ValidWords(Strip(https))
  {
    if http != "" {
      var a := FormatEndsWithHttp(https, http);
      TagsAfterColon(a, http);
    } else if https != "" {
      FormatHttpsOnly(https);
      TagsAfterColon("https", https);
    }
  }

  /** A cell `a: b` with a `h` first shows the valid words of `b`. */
  lemma TagsAfterColon(a: string, b: string)
    requires ':' !in b && a != [] && a[0] == 'h'
    ensures MethodTags(Some(a + ":" + (" " + b))) == ValidWords(Strip(b))
  {
    var r := a + ":" + (" " + b);
    assert r[0] == 'h';
    CleanedAfterLastColon(a, " " + b);
    StripLeadingSpace(b);
  }

  lemma FormatEndsWithHttp(https: string, http: string) returns (a: string)
    requires http != ""
    ensures a != [] && a[0] == 'h'
    ensures FormatMethods(https, http) == a + ":" + (" " + http)
  {
    a := if https != "" then "https: " + https + " | http" else "http";
  }

  lemma FormatHttpsOnly(https: string)
    requires https != ""
    ensures FormatMethods(https, "") == "https" + ":" + (" " + https)
  {
  }

  /** A leading space makes no difference to `strip()`. */
  lemma StripLeadingSpace(s: string)
    ensures Strip(" " + s) == Strip(s)
  {
    assert (" " + s)[1..] == s;
  }

  /**
    The tags of a tech or port cell: none when `str(value)` is empty or
    `"None"` (the cell then reads `"None"`), otherwise one per comma-separated
    piece, stripped, empty pieces included.
   */
  function CellTags(value: Option<string>): (r: Option<seq<string>>)
    ensures r.None? <==> PyStr(value) == "" || PyStr(value) == "None"
    ensures value.None? ==> r.None?
    ensures r.Some? ==> |r.value| == CountChar(PyStr(value), ',') + 1
  {
    var s := PyStr(value);
    if s == "" || s == "None" then None
    else
      SplitCount(s, ',');
      Some(StripAll(Split(s, ",")))
  }

  /** `[p.strip() for p in pieces]` */
  function StripAll(pieces: seq<string>): (r: seq<string>)
    ensures |r| == |pieces| && forall k :: 0 <= k < |r| ==> r[k] == Strip(pieces[k])
  {
    seq(|pieces|, k requires 0 <= k < |pieces| => Strip(pieces[k]))
  }

  /** The text of a tech or port cell. */
  function TagText(cls: string, value: Option<string>): (r: string)
    ensures r == "None" <==> CellTags(value).None?
  {
    match CellTags(value)
    case None => "None"
    case Some(tags) => Spans(cls, tags)
  }

  /** A string splits on `c` into one piece more than it has `c`s. */
  lemma {:induction false} SplitCount(s: string, c: char)
    ensures |Split(s, [c])| == CountChar(s, c) + 1
    decreases |s|
  {
    match IndexOf(s, [c])
    case None =>
      ContainsChar(s, c);
      CountCharAbsent(s, c);
    case Some(i) =>
      var rest := s[i + 1..];
      SplitAt(s, c, i);
      SplitCount(rest, c);
      PrefixWithout(s, c, i);
      CountCharAbsent(s[..i], c);
      assert s[i] == c by { assert s[i..i + 1][0] == s[i]; }
      assert s == s[..i] + ([c] + rest);
      CountCharAppend(s[..i], [c] + rest, c);
      CountCharAppend([c], rest, c);
      assert CountChar([c], c) == 1 by { assert [c][1..] == []; }
  }

  /** The text before the first `c` holds no `c`. */
  lemma PrefixWithout(s: string, c: char, i: nat)
    requires IndexOf(s, [c]) == Some(i)
    ensures c !in s[..i]
  {
    forall j | 0 <= j < i ensures s[..i][j] != c {
      assert !OccursAt(s, [c], j);
      assert s[j..j + 1] == [s[j]];
    }
  }

  /**
    The port cell of a row written by `update_db` shows one tag per port, each
    the decimal text of that port, in the order naabu reported them.
   */
  lemma PortCellTags(ports: seq<nat>)
    requires ports != []
    ensures CellTags(Some(Naabu.PortsText(ports))) == Some(seq(|ports|, k requires 0 <= k < |ports| => Decimal(ports[k])))
  {
    var q := seq(|ports|, k requires 0 <= k < |ports| => Decimal(ports[k]));
    PortsTextPieces(ports, q);
    CellTagsOf(Naabu.PortsText(ports), q);
    StripAllDigits(q);
  }

  /** The port text is neither empty nor `"None"`, and splits into the ports' decimal texts. */
  lemma PortsTextPieces(ports: seq<nat>, q: seq<string>)
    requires ports != [] && q == seq(|ports|, k requires 0 <= k < |ports| => Decimal(ports[k]))
    ensures var s := Naabu.PortsText(ports); s != "" && s != "None" && Split(s, ",") == q
  {
    var s := Naabu.PortsText(ports);
    Naabu.SplitJoinDigits(q);
    assert s[0] == q[0][0] by { JoinHead(q, ","); }
    assert s != "None" by { assert IsDigit(q[0][0]); }
  }

  lemma StripAllDigits(q: seq<string>)
    requires forall k :: 0 <= k < |q| ==> AllDigits(q[k])
    ensures StripAll(q) == q
  {
    forall k | 0 <= k < |q| ensures StripAll(q)[k] == q[k] {
      StripDigits(q[k]);
    }
  }

  /** The tags of a text that is neither empty nor `"None"` are its stripped pieces. */
  lemma CellTagsOf(s: string, q: seq<string>)
    requires s != "" && s != "None" && Split(s, ",") == q
    ensures CellTags(Some(s)) == Some(StripAll(q))
  {
  }

  /** A join starts with the first part's first character. */
  lemma JoinHead(q: seq<string>, sep: string)
    requires q != [] && q[0] != []
    ensures Join(q, sep) != [] && Join(q, sep)[0] == q[0][0]
  {
  }

  /** Digits carry no surrounding whitespace. */
  lemma StripDigits(s: string)
    requires AllDigits(s)
    ensures Strip(s) == s
  {
    if s != [] {
      assert !IsSpace(s[0]) && !IsSpace(s[|s| - 1]);
    }
    StripUnchanged(s);
  }

  /** Text that neither starts nor ends with whitespace is its own `strip()`. */
  lemma StripUnchanged(s: string)
    requires s == [] || (!IsSpace(s[0]) && !IsSpace(s[|s| - 1]))
    ensures Strip(s) == s
  {
    assert LStrip(s) == s;
    assert RStrip(s) == s;
  }

  /**
    The tech cell of a row written by `update_db` shows the host's tech list
    again, when no entry holds a comma or surrounding whitespace and the joined
    text is neither empty nor the word `None`.
   */
  lemma TechCellTags(techs: seq<string>)
    requires techs != []
    requires forall k :: 0 <= k < |techs| ==> ',' !in techs[k] && Strip(techs[k]) == techs[k]
    requires Join(techs, ", ") != "" && Join(techs, ", ") != "None"
    ensures CellTags(Some(Join(techs, ", "))) == Some(techs)
  {
    SplitSpaced(techs);
    CellTagsOf(Join(techs, ", "), Spaced(techs));
    StripSpaced(techs);
  }

  /** A `", "` join of comma-free parts splits on `","` into the spaced parts. */
  lemma SplitSpaced(techs: seq<string>)
    requires techs != []
    requires forall k :: 0 <= k < |techs| ==> ',' !in techs[k]
    ensures Split(Join(techs, ", "), ",") == Spaced(techs)
  {
    var q := Spaced(techs);
    JoinSpaced(techs);
    forall k | 0 <= k < |q| ensures ',' !in q[k] {
      if k > 0 { assert q[k] == " " + techs[k]; }
    }
    SplitJoin(q, ',');
  }

  /** Stripping the spaced parts gives back parts that carried no surrounding whitespace. */
  lemma StripSpaced(techs: seq<string>)
    requires forall k :: 0 <= k < |techs| ==> Strip(techs[k]) == techs[k]
    ensures StripAll(Spaced(techs)) == techs
  {
    var q := Spaced(techs);
    forall k | 0 <= k < |q| ensures StripAll(q)[k] == techs[k] {
      if k > 0 { StripLeadingSpace(techs[k]); }
    }
  }

  /** The parts of a `", "` join seen as a `","` join: every part after the first gains a leading space. */
  function Spaced(q: seq<string>): (r: seq<string>)
    ensures |r| == |q|
    ensures forall k :: 0 <= k < |q| ==> r[k] == if k == 0 then q[0] else " " + q[k]
  {
    seq(|q|, k requires 0 <= k < |q| => if k == 0 then q[0] else " " + q[k])
  }

  lemma {:induction false} JoinSpaced(q: seq<string>)
    ensures Join(q, ", ") == Join(Spaced(q), ",")
  {
    if |q| > 1 {
      JoinSpaced(q[1..]);
      var t := Spaced(q[1..]);
      var r := Spaced(q);
      assert r[1..] == [" " + t[0]] + t[1..];
      assert Join(r[1..], ",") == " " + Join(t, ",") by { JoinCons(t, ","); }
      assert Join(q, ", ") == q[0] + ", " + Join(t, ",");
      assert Join(r, ",") == r[0] + "," + Join(r[1..], ",");
    }
  }

  /** Prefixing the first part prefixes the join. */
  lemma JoinCons(t: seq<string>, sep: string)
    requires t != []
    ensures Join([" " + t[0]] + t[1..], sep) == " " + Join(t, sep)
  {
    var u := [" " + t[0]] + t[1..];
    if |t| > 1 {
      assert u[1..] == t[1..];
    }
  }

  // ---------------------------------------------------------------- enum_domain

  /** The stdout of a shell line run to completion (`run_command`); its exit status is ignored. */
  type Shell = string -> string

  /** The passive tools: subfinder, then amass. */
  function PassiveTools(domain: string): seq<string> {
    ["subfinder -d " + domain + " -silent -all -recursive", "amass enum -passive -d " + domain]
  }

  /** The active tool: shuffledns over a wordlist and a resolver list. */
  function ActiveTools(domain: string): seq<string> {
    ["shuffledns -d " + domain + " -list all.txt -r resolvers.txt"]
  }

  function Tools(domain: string, mode: string): seq<string> {
    if mode == "passive" then PassiveTools(domain) else ActiveTools(domain)
  }

  /** Every line that one of `commands` printed. */
  function Found(shell: Shell, commands: seq<string>): (r: set<string>)
    ensures forall l :: l in r ==> '\n' !in l
  {
    set c, l | c in commands && l in SplitLines(shell(c)) :: l
  }

  /** `"\n".join(sorted(lines))` */
  function SortedLines(lines: set<string>): string {
    Join(SortSet(lines), "\n")
  }

  /**
    `enum_domain`: run each tool of the mode and keep every line any of them
    printed, each once, in ascending order, one per line.
   */
  method EnumDomain(domain: string, mode: string, shell: Shell) returns (r: string)
    ensures r == SortedLines(Found(shell, Tools(domain, mode)))
  {
    var tools := Tools(domain, mode);
    var lines: set<string> := {};
    for i := 0 to |tools|
      invariant lines == Found(shell, tools[..i])
    {
      FoundSnoc(shell, tools, i);
      lines := lines + set l | l in SplitLines(shell(tools[i]));
    }
    assert tools[..|tools|] == tools;
    r := Join(SortSet(lines), "\n");
  }

  lemma FoundSnoc(shell: Shell, commands: seq<string>, i: nat)
    requires i < |commands|
    ensures Found(shell, commands[..i + 1]) == Found(shell, commands[..i]) + set l | l in SplitLines(shell(commands[i]))
  {
    assert commands[..i + 1] == commands[..i] + [commands[i]];
  }

  /**
    Read back line by line, the result of `enum_domain` is the found lines,
    each once and in ascending order; only when the tools printed nothing but
    blank lines is it empty.
   */
  lemma SortedLinesRead(lines: set<string>)
    requires forall l :: l in lines ==> '\n' !in l
    ensures SplitLines(SortedLines(lines)) == if lines == {""} then [] else SortSet(lines)
  {
    var q := SortSet(lines);
    if lines == {""} {
      assert q == [""] by {
        assert |q| == 1;
        assert q[0] in lines;
      }
    } else {
      SortSetLastNonEmpty(lines);
      forall k | 0 <= k < |q| ensures '\n' !in q[k] {
        assert q[k] in lines;
      }
      SplitLinesJoin(q);
    }
  }

  // ---------------------------------------------------------------- add

  /**
    The hosts one argument of `add` stands for: the subdomains found passively
    for an argument holding `*.`, after dropping all its leading `*` and `.`
    characters; any other argument stands for itself.
   */
  function Expansion(arg: string, shell: Shell): seq<string> {
    if Contains(arg, "*.") then SplitLines(SortedLines(Found(shell, PassiveTools(LStripChars(arg, {'*', '.'})))))
    else [arg]
  }

  function Expanded(args: seq<string>, shell: Shell): seq<string> {
    if args == [] then [] else Expanded(args[..|args| - 1], shell) + Expansion(args[|args| - 1], shell)
  }

  /** The host list `add` builds from its arguments, in argument order. */
  method ExpandAdd(args: seq<string>, shell: Shell) returns (domains: seq<string>)
    ensures domains == Expanded(args, shell)
  {
    domains := [];
    for i := 0 to |args|
      invariant domains == Expanded(args[..i], shell)
    {
      assert args[..i + 1][..i] == args[..i];
      if Contains(args[i], "*.") {
        var found := EnumDomain(LStripChars(args[i], {'*', '.'}), "passive", shell);
        domains := domains + SplitLines(found);
      } else {
        domains := domains + [args[i]];
      }
    }
    assert args[..|args|] == args;
  }

  /** Arguments without `*.` reach `maintest` verbatim and in order. */
  lemma {:induction false} PlainArgsPassThrough(args: seq<string>, shell: Shell)
    requires forall k :: 0 <= k < |args| ==> !Contains(args[k], "*.")
    ensures Expanded(args, shell) == args
  {
    if args != [] {
      PlainArgsPassThrough(args[..|args| - 1], shell);
      assert args[..|args| - 1] + [args[|args| - 1]] == args;
    }
  }

  /** A wildcard argument stands for the subdomains the passive tools found, each once, in ascending order. */
  lemma WildcardExpansion(arg: string, shell: Shell)
    requires Contains(arg, "*.")
    ensures var found := Found(shell, PassiveTools(LStripChars(arg, {'*', '.'})));
      Expansion(arg, shell) == if found == {""} then [] else SortSet(found)
  {
    SortedLinesRead(Found(shell, PassiveTools(LStripChars(arg, {'*', '.'}))));
  }

  /**
    The `add` command: expand the arguments, then run `maintest` on the hosts
    under the shell's program.
   */
  method Add(db: Database, args: seq<string>, programName: string, shell: Shell, stdout: string,
             run: Runner, shoot: Shooter, phash: Httpx.Phasher, scan: Naabu.Scanner) returns (status: Pipeline.Status)
    modifies db
    ensures var end := Pipeline.HttpxData(Expanded(args, shell), stdout, run, shoot, phash);
      (db.State(), status) == Pipeline.UpdateDb(old(db.State()), programName, end,
                                                Naabu.ScanResult(scan(Naabu.IpsFile(SortSet(Pipeline.LiveIps(end))))))
  {
    var domains := ExpandAdd(args, shell);
    status := Pipeline.MainTest(db, domains, programName, stdout, run, shoot, phash, scan);
  }

  // ---------------------------------------------------------------- list filters

  /** Python `s.split(c, 1)` on text holding `c`: the text before the first `c`, and the rest after it. */
  function SplitOnce(s: string, c: char): (r: (string, string))
    requires c in s
    ensures s == r.0 + [c] + r.1 && c !in r.0
  {
    if s[0] == c then ([], s[1..])
    else
      var t := SplitOnce(s[1..], c);
      assert s == [s[0]] + s[1..];
      ([s[0]] + t.0, t.1)
  }

  /** The split is at the first `c`: the rest keeps any later one. */
  lemma {:induction false} SplitOnceFirst(a: string, c: char, b: string)
    requires c !in a
    ensures SplitOnce(a + [c] + b, c) == (a, b)
  {
    var s := a + [c] + b;
    if a != [] {
      assert s[1..] == a[1..] + [c] + b;
      SplitOnceFirst(a[1..], c, b);
      assert [a[0]] + a[1..] == a;
    } else {
      assert s[1..] == b;
    }
  }

  /** One filter item: split at its first `:`, both sides stripped; nothing when it holds no `:`. */
  function FilterItem(item: string): (r: Option<(string, string)>)
    ensures r.None? <==> ':' !in item
  {
    if ':' in item then
      var (key, value) := SplitOnce(item, ':');
      Some((Strip(key), Strip(value)))
    else None
  }

  /** The `filter_dict` built from the items in order: a later item overwrites an earlier key in place. */
  function FilterDict(items: seq<string>): (r: seq<(string, string)>)
    ensures DistinctKeys(r)
  {
    if items == [] then []
    else
      var d := FilterDict(items[..|items| - 1]);
      match FilterItem(items[|items| - 1])
      case None => d
      case Some(kv) => Put(d, kv.0, kv.1)
  }

  /** The filters of `list`: none when the argument is missing or empty, else the items between commas. */
  function Filters(filters: Option<string>): seq<(string, string)> {
    if filters.None? || filters.value == "" then [] else FilterDict(Split(filters.value, ","))
  }

  /** `llist`'s filter parsing loop. */
  method ParseFilters(filters: Option<string>) returns (d: seq<(string, string)>)
    ensures d == Filters(filters)
    ensures DistinctKeys(d)
  {
    d := [];
    if filters.Some? && filters.value != "" {
      var items := Split(filters.value, ",");
      for i := 0 to |items|
        invariant d == FilterDict(items[..i])
      {
        var item := items[i];
        FilterDictStep(items, i);
        if ':' in item {
          var (key, value) := SplitOnce(item, ':');
          d := Put(d, Strip(key), Strip(value));
        }
      }
      assert items[..|items|] == items;
    }
  }

  lemma FilterDictStep(items: seq<string>, i: nat)
    requires i < |items|
    ensures FilterDict(items[..i + 1]) == match FilterItem(items[i])
      case None => FilterDict(items[..i])
      case Some(kv) => Put(FilterDict(items[..i]), kv.0, kv.1)
  {
    assert items[..i + 1][..i] == items[..i];
  }

  /** The value of the last item whose key is `k`, if any. */
  function LastValue(items: seq<string>, k: string): Option<string> {
    if items == [] then None
    else match FilterItem(items[|items| - 1])
      case Some(kv) => if kv.0 == k then Some(kv.1) else LastValue(items[..|items| - 1], k)
      case None => LastValue(items[..|items| - 1], k)
  }

  /** Each key of the filters holds the value of its last item. */
  lemma {:induction false} FilterLastWins(items: seq<string>, k: string)
    ensures Get(FilterDict(items), k) == LastValue(items, k)
  {
    if items != [] {
      FilterLastWins(items[..|items| - 1], k);
    }
  }

  /** An item is split at its first `:` only: the value keeps any later `:`. */
  lemma FilterItemFirstColon(a: string, b: string)
    requires ':' !in a
    ensures FilterItem(a + ":" + b) == Some((Strip(a), Strip(b)))
  {
    assert a + ":" + b == a + [':'] + b;
    SplitOnceFirst(a, ':', b);
  }

  // ---------------------------------------------------------------- list queries

  /** A bound parameter: the program id, or a `LIKE` pattern. */
  datatype Param = ProgramId(id: nat) | Pattern(text: string)

  /** The columns a filter may name. */
  const FilterColumns: seq<string> := ["http_status", "techno", "ip", "title", "open_port", "spfdmarc", "ssltls", "method", "com"]

  predicate Listed(key: string) {
    key in FilterColumns
  }

  predicate Whitelisted(f: (string, string)) {
    Listed(f.0)
  }

  /** The condition a whitelisted filter adds. */
  function Clause(key: string): string {
    ClauseHead + key + ClauseTail
  }


  /** The conditions and the patterns the filters add, in order. */
  function Conditions(filters: seq<(string, string)>): (string, seq<Param>) {
    if filters == [] then ("", [])
    else
      var c := Conditions(filters[..|filters| - 1]);
      var f := filters[|filters| - 1];
      if Whitelisted(f) then (c.0 + Clause(f.0), c.1 + [Pattern("%" + f.1 + "%")]) else c
  }

  /** Regrouping an appended clause; the loop and the lemmas below need it stated. */
  lemma Associative(a: string, b: string, c: string)
    ensures a + (b + c) == a + b + c
  {
  }

  lemma ConditionsListed(filters: seq<(string, string)>, i: nat)
    requires i < |filters| && Whitelisted(filters[i])
    ensures Conditions(filters[..i + 1]).0 == Conditions(filters[..i]).0 + Clause(filters[i].0)
    ensures Conditions(filters[..i + 1]).1 == Conditions(filters[..i]).1 + [Pattern("%" + filters[i].1 + "%")]
  {
    assert filters[..i + 1][..i] == filters[..i];
  }

  lemma ConditionsUnlisted(filters: seq<(string, string)>, i: nat)
    requires i < |filters| && !Whitelisted(filters[i])
    ensures Conditions(filters[..i + 1]) == Conditions(filters[..i])
  {
    assert filters[..i + 1][..i] == filters[..i];
  }

  /** The query text and parameters for a base query, its ordering and a program. */
  function Query(base: string, order: string, pid: nat, filters: seq<(string, string)>): (string, seq<Param>) {
    var c := Conditions(filters);
    (base + c.0 + order, [ProgramId(pid)] + c.1)
  }


  /** `llist`'s query building loop. */
  method BuildQuery(base: string, order: string, pid: nat, filters: seq<(string, string)>) returns (query: string, params: seq<Param>)
    ensures (query, params) == Query(base, order, pid, filters)
  {
    query, params := base, [ProgramId(pid)];
    assert filters[..0] == [];
    for i := 0 to |filters|
      invariant query == base + Conditions(filters[..i]).0
      invariant params == [ProgramId(pid)] + Conditions(filters[..i]).1
    {
      var (key, value) := filters[i];
      if Listed(key) {
        ConditionsListed(filters, i);
        Associative(base, Conditions(filters[..i]).0, Clause(key));
        query := query + Clause(key);
        params := params + [Pattern("%" + value + "%")];
      } else {
        ConditionsUnlisted(filters, i);
      }
    }
    assert filters[..|filters|] == filters;
    query := query + order;
  }

  /** Every `?` of a built query has its parameter. */
  lemma PlaceholdersMatch(base: string, order: string, pid: nat, filters: seq<(string, string)>)
    requires CountChar(base, '?') == 1 && '?' !in order
    ensures var q := Query(base, order, pid, filters); CountChar(q.0, '?') == |q.1|
  {
    var c := Conditions(filters);
    ConditionsPlaceholders(filters);
    CountCharAppend(base + c.0, order, '?');
    CountCharAppend(base, c.0, '?');
    CountCharAbsent(order, '?');
  }

  lemma {:induction false} ConditionsPlaceholders(filters: seq<(string, string)>)
    ensures CountChar(Conditions(filters).0, '?') == |Conditions(filters).1|
  {
    if filters != [] {
      var init := filters[..|filters| - 1];
      var f := filters[|filters| - 1];
      ConditionsPlaceholders(init);
      if Whitelisted(f) {
        ListedHasNoPlaceholder(f.0);
        ClausePlaceholder(f.0);
        CountCharAppend(Conditions(init).0, Clause(f.0), '?');
      }
    }
  }

  /** A condition on a whitelisted column holds exactly one placeholder. */
  lemma ClausePlaceholder(key: string)
    requires '?' !in key
    ensures CountChar(Clause(key), '?') == 1
  {
    ClauseText();
    CountCharAppend(" LIKE ", "?", '?');
    CountCharAbsent(" LIKE ", '?');
    assert CountChar("?", '?') == 1 by { assert "?"[1..] == []; }
    CountCharAppend(ClauseHead + key, ClauseTail, '?');
    CountCharAppend(ClauseHead, key, '?');
    CountCharAbsent(ClauseHead, '?');
    CountCharAbsent(key, '?');
  }

  lemma ListedHasNoPlaceholder(key: string)
    requires Listed(key)
    ensures '?' !in key
  {
  }

  /** The two listings `list` runs each bind the program id to their one placeholder. */
  lemma ListingPlaceholders()
    ensures CountChar(DomainBase(), '?') == 1 && '?' !in DomainOrderBy
    ensures CountChar(IpBase(), '?') == 1 && '?' !in IpOrderBy
  {
    SqlClear();
    OnePlaceholder(DomainSelect, Close);
    OnePlaceholder(IpSelect, IpTail);
  }



  lemma OnePlaceholder(a: string, b: string)
    requires '?' !in a && '?' !in b
    ensures CountChar(a + "?" + b, '?') == 1
  {
    CountCharAppend(a + "?", b, '?');
    CountCharAppend(a, "?", '?');
    CountCharAbsent(a, '?');
    CountCharAbsent(b, '?');
    assert CountChar("?", '?') == 1 by { assert "?"[1..] == []; }
  }

  /** A filter on a column outside the whitelist leaves the query text and the parameters as they were. */
  lemma UnlistedKeyIgnored(base: string, order: string, pid: nat, filters: seq<(string, string)>, key: string, value: string)
    requires !Listed(key)
    ensures Query(base, order, pid, filters + [(key, value)]) == Query(base, order, pid, filters)
  {
    assert (filters + [(key, value)])[..|filters|] == filters;
  }

  /** A whitelisted filter adds its condition to the text and its value, wrapped in `%`, as the last parameter. */
  lemma ListedKeyAdded(base: string, order: string, pid: nat, filters: seq<(string, string)>, key: string, value: string)
    requires Listed(key)
    ensures var q := Query(base, order, pid, filters);
      Query(base, order, pid, filters + [(key, value)]) ==
        (base + Conditions(filters).0 + Clause(key) + order, q.1 + [Pattern("%" + value + "%")])
  {
    var fs := filters + [(key, value)];
    var c := Conditions(filters);
    assert fs[..|fs| - 1] == filters && fs[|fs| - 1] == (key, value);
    assert Conditions(fs) == (c.0 + Clause(key), c.1 + [Pattern("%" + value + "%")]);
    Associative(base, c.0, Clause(key));
    assert [ProgramId(pid)] + (c.1 + [Pattern("%" + value + "%")]) == [ProgramId(pid)] + c.1 + [Pattern("%" + value + "%")];
  }
}
