# Reconit — a Dafny model of its recon pipeline and its database commands

Reconit is a command-line recon tool for bug-bounty programs. It keeps
programs, their hosts and one probe record per host in an SQLite file
(`database.db`). It has three tables:

- `programs`, with a UNIQUE `program_name`;
- `domains`, with a UNIQUE `domain_name` and the owning `program_id`;
- `domain_details`, with the probe columns and a comment.

Hosts are found with the subdomain tools (subfinder, amass, crt.sh,
shuffledns). Each host is probed through httpx for its status, title,
address and technologies. Three collectors then run per host: the
`Allow:` header of an `OPTIONS` request, SPF/DMARC TXT records, and a
screenshot. The addresses are port-scanned with naabu, and everything is
stored under the program. The repository has two interactive shells,
`Reconit.py` and `Reconitv2.py`, which share the pipeline in
`enum_task.py`.

What the project models, module by module:

| module | file | what it models |
|---|---|---|
| `Wrappers`, `Text`, `Order`, `Dict` | wrappers, text, order, dict | Python's `None`, the `str` methods the code uses (`strip`, `split`, `join`, `replace`, `splitlines`, `upper`, `lower`, `lstrip`), `sorted(set(…))` in code-point order, and an insertion-ordered `dict` |
| `Store` | store.dfy | the three tables, the SQL statements the core issues (each a function on the tables), SQLite's `LIKE`, the invariant the schema keeps (`Valid`), and a `Database` class whose methods execute the statements in place |
| `EnumTask` | enum_task.dfy | `execute_command`, `get_spfdmarc`, `get_method` and the three collectors |
| `Httpx` | httpx.dfy | `get_httpx_data`: the line pattern, the host key, and the record per host, where the last matching line wins |
| `Naabu` | naabu.dfy | `scan_naabu_fingerprint`: the `ips.txt` contents, the `IP:PORT` pattern, and the ports grouped per address |
| `Pipeline` | pipeline.dfy | `update_db` as one transaction, and `maintest` |
| `ListingSql`, `ReconitV2` | sql.dfy, reconitv2.dfy | `Reconitv2.py`: how the report normalises the method, technology and port cells; `enum_domain`; `llist`'s filter parsing and query building; the `add` command's host expansion |
| `Admin` | admin.dfy | `rm`, `add_com` and `add_program` |
| `Reconit` | reconit.dfy | `Reconit.py`: `enum_domain`, which also queries crt.sh; `add_url`; the phash grouping of `show`; `add_program`, which reports an existing program |

`rm` and `add_com` have the same text in both shells, so each is modelled
once.

External programs are parameters: httpx, naabu, dig, curl, the shell
tools and the headless browser. Each is a function from the command (or
`ips.txt`'s contents, or the URL) to how the process ended:

- completed, with its stdout;
- `TimeoutExpired`;
- another exception.

`get_phash` is likewise a parameter.

`update_db` runs inside `with sqlite3.connect(...)`, so it either commits
or rolls the whole transaction back. If naabu failed (`None`) and a live
record has an address, `naabu_results.get` raises. The model then reports
`RolledBack` and leaves the tables unchanged.

## Model

| member | source | states |
|---|---|---|
| EnumTask.ExecuteCommand | enum_task.py:22-31 | the lines of the stripped stdout, none containing a line break, joining back to the stripped stdout; empty exactly when the command failed or printed only blanks; never a single empty line |
| EnumTask.StatusText | enum_task.py:46-49 | two marks separated by one space; a leading tick iff SPF passed, a trailing tick iff DMARC passed |
| EnumTask.GetSpfDmarc | enum_task.py:34-49 | first mark is a tick iff some TXT record of the host contains `v=spf1`; second iff some TXT record of `_dmarc.<host>` contains `v=DMARC1` |
| EnumTask.RunCommand | enum_task.py:72-77 | fails exactly when the command raised something other than a timeout; a timeout gives `""` |
| EnumTask.FormatMethods | enum_task.py:89-95 | `No methods found` iff both answers are empty; otherwise exactly `https: <answer>`, `http: <answer>`, or both joined by ` \| ` with the https answer first |
| EnumTask.GetMethod | enum_task.py:70-95 | fails iff one of the two curl runs raised; otherwise the formatted pair of the https and http answers |
| EnumTask.GetMethodsParallel | enum_task.py:98-111 | one entry per distinct input host, holding that host's `get_method` value or `Error: <message>` |
| EnumTask.GetSpfDmarcParallel | enum_task.py:52-67 | one entry per distinct input host, holding its `get_spfdmarc` marks |
| EnumTask.TakeScreenshotsParallel | enum_task.py:196-224 | a URL is a key iff it was asked for and its screenshot is a non-empty string, and the value is that screenshot |
| Httpx.Field | enum_task.py:139 | a lazy `(.*?)\]` group: the text before the first delimiter, which does not contain it, and the rest; none when the delimiter is absent |
| Httpx.FieldOf | enum_task.py:139 | the lazy group stops at the delimiter that follows a delimiter-free text |
| Httpx.MatchHead | enum_task.py:139 | the URL has a scheme, a host part and no spaces; the status is digits; the verb is word characters |
| Httpx.MatchHeadRender | enum_task.py:139 | a rendered URL, status and verb are read back exactly |
| Httpx.MatchStatusVerbRender | enum_task.py:139 | the status and verb groups are read back exactly |
| Httpx.MatchTail | enum_task.py:139 | the title and IP groups hold no `] [`, the technology group no `]` |
| Httpx.MatchTailRender | enum_task.py:139 | rendered title, IP and technologies are read back exactly |
| Httpx.MatchFields | enum_task.py:139 | every match yields well-formed fields |
| Httpx.MatchRender | enum_task.py:139 | a well-formed record rendered as httpx prints it, followed by anything, matches back to the same fields |
| Httpx.Search | enum_task.py:139 | `re.search` finds only well-formed fields |
| Httpx.SearchRender | enum_task.py:139 | a line starting with a rendered record is found with exactly those fields |
| Httpx.HostKeyOfUrl | enum_task.py:142 | the host key of `scheme + host` is the host when the host mentions no scheme |
| Httpx.Lookup | enum_task.py:146 | `dict.get` is present iff the key is, and then holds the key's value |
| Httpx.TechList | enum_task.py:149 | empty iff the technology group is empty; joining with `, ` gives the group back |
| Httpx.Record | enum_task.py:153-166 | `open_port` is the placeholder `xx`; the screenshot is the collector's; a phash exists only with a screenshot; the technologies join back to the group |
| Httpx.Merge | enum_task.py:154 | the result has distinct host keys |
| Httpx.Assign | enum_task.py:154 | assigning a record keeps the keys distinct |
| Httpx.LastFor | enum_task.py:138-154 | the last line carrying a host, or none iff no line carries it |
| Httpx.MergeGet | enum_task.py:138-166 | a host's record comes from the last matching line for it; hosts never matched are absent |
| Httpx.MergeStep | enum_task.py:138-154 | one more line either changes nothing or assigns its record |
| Httpx.GetHttpxData | enum_task.py:114-175 | blank stdout maps every input host to `None`; otherwise the merged records of the matching lines, with the collectors run on the input hosts |
| Httpx.Collect | enum_task.py:134-137 | the three collector maps for the input hosts |
| Httpx.MergeLines | enum_task.py:138-166 | the loop over the lines computes `Merge` of their matches |
| Naabu.DigitsThen | enum_task.py:308 | a non-empty digit run followed by the separator, and the rest |
| Naabu.DigitsThenOf | enum_task.py:308 | a digit run followed by a non-digit separator is read back |
| Naabu.Address | enum_task.py:308 | the dotted address and the text after its `:` |
| Naabu.AddressOf | enum_task.py:308 | four digit runs joined by dots, then `:`, are read back as the address |
| Naabu.ParseIpPort | enum_task.py:308 | a match starts with the address and `:` |
| Naabu.ParseIpPortOf | enum_task.py:308-310 | `a.b.c.d:port` followed by a non-digit is read back to the address and the port |
| Naabu.LinePorts | enum_task.py:307-313 | a line contributes at most one port |
| Naabu.GroupedSnoc | enum_task.py:311-313 | one more line appends its port to its address's list and nothing else |
| Naabu.GroupedAppend | enum_task.py:307-313 | the ports of an address over two runs of lines are the concatenation |
| Naabu.GroupedKeys | enum_task.py:311-313 | an address has no ports iff no line gave it one |
| Naabu.ScanResult | enum_task.py:297-327 | `None` iff the scan raised something other than a timeout; a timeout gives an empty map |
| Naabu.ScanNaabu | enum_task.py:291-327 | the scan's outcome on the `ips.txt` contents |
| Naabu.GroupLines | enum_task.py:306-313 | the loop computes the ports per address of the parsed lines |
| Naabu.GroupedStep | enum_task.py:311-313 | one iteration: create the list if missing, then append the port |
| Naabu.PortsText | enum_task.py:267 | empty iff there are no ports |
| Naabu.PortsTextRoundTrip | enum_task.py:267 | splitting the stored port text on `,` gives back each port in decimal, in order |
| Pipeline.NonEmpty | enum_task.py:277-280 | `x if x else None`: `None` iff the string is empty |
| Pipeline.NonEmptyOpt | enum_task.py:278-285 | `None` iff the value is `None` or empty |
| Pipeline.OpenPorts | enum_task.py:263-267 | raises iff the address is non-empty and the scan failed; `NULL` for no address or no ports; else the ports joined by `,` |
| Pipeline.DetailsOf | enum_task.py:271-286 | each of the nine columns is `NULL` exactly when the record's value is falsy, and otherwise holds that value; technologies are joined with `, `; `open_port` is the given port text |
| Pipeline.UpdateEntry | enum_task.py:241-286 | one entry only appends rows, and raises only when the scan failed |
| Pipeline.UpdateAll | enum_task.py:241-286 | the loop only appends rows, and cannot raise when the scan succeeded |
| Pipeline.UpdateDb | enum_task.py:227-288 | `NoProgram` iff no program has the name; anything but a commit leaves the tables unchanged; a commit only appends rows; no rollback when the scan succeeded |
| Pipeline.UpdateEntryValid | enum_task.py:245-286 | one entry keeps the schema invariant |
| Pipeline.UpdateAllValid | enum_task.py:241-286 | the loop keeps the schema invariant |
| Pipeline.UpdateDbValid | enum_task.py:227-288 | `update_db` keeps the schema invariant however it ends |
| Pipeline.ForeignHostSkipped | enum_task.py:245-258 | a live host already owned by another program adds nothing |
| Pipeline.NewHostStored | enum_task.py:245-286 | a new live host gets a `domains` row under the program and a details row holding its record |
| Pipeline.UpdateAllRows | enum_task.py:241-286 | every new details row holds the details of some live entry, for a host owned by the program |
| Pipeline.NewRowFrom | enum_task.py:245-286 | the row one entry appends holds that entry's details |
| Pipeline.DeadEntriesChangeNothing | enum_task.py:241-243 | entries whose values are all `None` change nothing |
| Pipeline.UpdateAllStep | enum_task.py:241 | one more entry, unless an earlier one raised |
| Pipeline.UpdateAllRaised | enum_task.py:241-288 | once an entry has raised, the whole loop has raised |
| Pipeline.UpdateDbExec | enum_task.py:227-288 | executing on the database gives the new tables and the status of `UpdateDb` |
| Pipeline.UpdateAllExec | enum_task.py:241-288 | the executed loop commits `UpdateAll`'s tables, or rolls back to the start |
| Pipeline.UpdateEntryExec | enum_task.py:245-286 | one executed entry; when it raises, only the host insert has happened |
| Pipeline.MainTest | enum_task.py:342-346 | probe, scan the distinct live addresses, and store with `update_db` |
| Pipeline.BlankProbeStoresNothing | enum_task.py:131-132 | with blank httpx output nothing is stored and nothing rolls back, whatever naabu did |
| Pipeline.ScannedIps | enum_task.py:344 | the scanned addresses are exactly the non-empty addresses of live records, each once |
| Store.EmptyValid | setup_database.py:12-47 | the empty tables satisfy the schema invariant |
| Store.Filter | Reconitv2.py:82-83 | a row survives a `DELETE … WHERE` iff it was there and does not match |
| Store.FilterAppend | Reconitv2.py:493 | filtering keeps the order of what it keeps: it distributes over concatenation |
| Store.FilterPairwise | setup_database.py:12-27 | deleting rows keeps the ordering and uniqueness of the rest |
| Store.ProgramIdOf | Reconitv2.py:77-78 | `SELECT id FROM programs WHERE program_name = ?` finds a row with that name, and finds none iff no row has it |
| Store.ProgramUrlOf | Reconit.py:114-115 | `SELECT url … WHERE program_name = ?` is present iff the program exists, and then is that row's url |
| Store.DomainIdOf | Reconitv2.py:105-106 | the id of a `domains` row with that name; none iff no row has it |
| Store.OwnedDomainIdOf | enum_task.py:250-254 | the id of a row with that program and name; none iff there is none |
| Store.InsertProgram | Reconit.py:562 | appends a row with no comment and no url, under the id one past the model's counter, and leaves the other tables alone |
| Store.SetProgramCom | Reconitv2.py:911 | sets the comment of the row with the id and nothing else |
| Store.SetProgramUrl | Reconit.py:124-128 | sets the url of the rows with the name and nothing else |
| Store.SetDetailsCom | Reconitv2.py:924 | sets the comment of every details row of the domain id and nothing else |
| Store.LikeLiteral | Reconitv2.py:94 | a pattern without wildcards matches exactly the strings equal to it up to ASCII case |
| Store.LikeSuffix | Reconitv2.py:94 | `%q` with a literal `q` matches exactly the strings ending in `q` up to ASCII case |
| Store.InsertOrIgnoreProgramValid | Reconitv2.py:695 | `INSERT OR IGNORE` keeps the invariant, the program then exists, and a second insert adds no row |
| Store.DeleteProgramValid | Reconitv2.py:82-83 | deleting a program with its domains keeps the invariant |
| Store.DeleteDomainsValid | Reconitv2.py:98-109 | deleting any domains keeps the invariant |
| Store.ProgramComValid | Reconitv2.py:911 | setting a program comment keeps the invariant |
| Store.ProgramUrlValid | Reconit.py:124-128 | setting a program url keeps the invariant |
| Store.DetailsComValid | Reconitv2.py:924 | setting a domain comment keeps the invariant |
| Store.InsertDomainValid | enum_task.py:245-248 | `INSERT OR IGNORE INTO domains` under an existing program keeps the invariant |
| Store.InsertDetailValid | enum_task.py:271-286 | appending a details row keeps the invariant |
| Store.Database.ExecInsertProgram | Reconit.py:562 | inserts iff the name is new (the UNIQUE constraint rejects it otherwise) |
| Store.Database.ExecInsertOrIgnoreProgram | Reconitv2.py:695 | the tables become `InsertOrIgnoreProgram` of the old ones |
| Store.Database.ExecDeleteDomainsOfProgram | Reconitv2.py:82 | the tables lose the program's domains |
| Store.Database.ExecDeleteProgram | Reconitv2.py:83 | the tables lose the program row |
| Store.Database.ExecDeleteDomain | Reconitv2.py:109 | the tables lose the domain row |
| Store.Database.ExecDeleteDomainsLike | Reconitv2.py:94-98 | the tables lose the domains matching the pattern |
| Store.Database.ExecSetProgramCom | Reconitv2.py:911 | the program comment is set |
| Store.Database.ExecSetProgramUrl | Reconit.py:124-128 | the program url is set |
| Store.Database.ExecSetDetailsCom | Reconitv2.py:924 | the domain comment is set |
| Store.Database.ExecInsertOrIgnoreDomain | enum_task.py:245-248 | the host is inserted unless its name exists |
| Store.Database.ExecInsertDetail | enum_task.py:271-286 | a details row is appended |
| Store.Database.Rollback | enum_task.py:229 | the tables return to the snapshot taken when the transaction began |
| ReconitV2.UpperWordsMembers | Reconitv2.py:490 | a word is among the method words iff some comma-separated piece that is not blank gives it, stripped and upper-cased |
| ReconitV2.UpperWordsAppend | Reconitv2.py:490 | the method words keep the order of their pieces: the comprehension distributes over concatenation |
| ReconitV2.KeepValid | Reconitv2.py:493 | a word is kept iff it is a method word and one of the nine valid methods |
| ReconitV2.KeepValidSnoc | Reconitv2.py:493 | one more word is kept, at the end, exactly when it is valid, so the kept words keep their order |
| ReconitV2.ValidWords | Reconitv2.py:488-493 | a word is valid for the cell iff it is one of the cleaned text's method words and one of the nine valid methods |
| ReconitV2.MethodTags | Reconitv2.py:485-493 | no tags for a NULL, empty or `None` cell; otherwise a word is a tag iff it is a method word of the cleaned text and a valid method |
| ReconitV2.MethodText | Reconitv2.py:494-499 | `No methods found` iff no valid method was found |
| ReconitV2.CleanedAfterLastColon | Reconitv2.py:488 | the cleaned method text is the stripped text after the last colon |
| ReconitV2.SplitLast | Reconitv2.py:488 | `split(c)[-1]` is the text after the last separator |
| ReconitV2.MethodTagsOfGetMethod | Reconitv2.py:485-493 | for a cell written by `get_method`, the tags are the valid words of the http answer, or of the https answer when there is no http answer |
| ReconitV2.CellTags | Reconitv2.py:510-529 | no tags iff `str(cell)` is empty or `None`; otherwise one tag per comma plus one |
| ReconitV2.TagText | Reconitv2.py:511-517 | the text is `None` iff the cell has no tags |
| ReconitV2.SplitCount | Reconitv2.py:514 | splitting on a character gives one more piece than it occurs |
| ReconitV2.PortCellTags | Reconitv2.py:521-526 | the port cell `update_db` stores shows one tag per port, each the port in decimal |
| ReconitV2.TechCellTags | Reconitv2.py:510-515 | the technology cell `update_db` stores shows one tag per technology, as found |
| ReconitV2.Found | Reconitv2.py:647-650 | the collected lines hold no line breaks |
| ReconitV2.EnumDomain | Reconitv2.py:631-652 | every line any tool of the mode printed, once each, sorted, joined by line breaks |
| ReconitV2.FoundSnoc | Reconitv2.py:650 | one more tool adds exactly the lines it printed |
| ReconitV2.SortedLinesRead | Reconitv2.py:652 | splitting `enum_domain`'s result gives the sorted distinct lines back |
| ReconitV2.ExpandAdd | Reconitv2.py:1275-1282 | the host list is the expansion of the arguments, in order |
| ReconitV2.PlainArgsPassThrough | Reconitv2.py:1276-1282 | arguments without `*.` are the host list |
| ReconitV2.WildcardExpansion | Reconitv2.py:1277-1279 | a `*.` argument contributes the sorted distinct passive finds for the stripped domain |
| ReconitV2.Add | Reconitv2.py:1274-1283 | `add` stores what `maintest` stores for the expanded host list |
| ReconitV2.SplitOnce | Reconitv2.py:1032 | `split(":", 1)`: the text before the first colon and the rest |
| ReconitV2.SplitOnceFirst | Reconitv2.py:1032 | the split happens at the first colon |
| ReconitV2.FilterItem | Reconitv2.py:1031-1033 | an item gives a filter iff it has a colon |
| ReconitV2.FilterItemFirstColon | Reconitv2.py:1031-1033 | key and value are the stripped texts around the first colon |
| ReconitV2.FilterDict | Reconitv2.py:1028-1033 | the filters have distinct keys |
| ReconitV2.ParseFilters | Reconitv2.py:1028-1033 | the loop computes the filter dictionary |
| ReconitV2.FilterDictStep | Reconitv2.py:1030-1033 | one more item puts its key and value, or changes nothing |
| ReconitV2.FilterLastWins | Reconitv2.py:1030-1033 | each key holds the value of its last item |
| ReconitV2.BuildQuery | Reconitv2.py:1059-1067 | the loop builds the query and the parameters `Query` describes |
| ReconitV2.ConditionsListed | Reconitv2.py:1062-1065 | a whitelisted filter adds its `LIKE ?` clause and its `%value%` pattern |
| ReconitV2.ConditionsUnlisted | Reconitv2.py:1063 | a filter that is not whitelisted adds nothing |
| ReconitV2.PlaceholdersMatch | Reconitv2.py:1053-1068 | the query has as many `?` placeholders as parameters |
| ReconitV2.ConditionsPlaceholders | Reconitv2.py:1062-1065 | the clauses hold one placeholder per pattern |
| ReconitV2.ClausePlaceholder | Reconitv2.py:1064 | a clause holds exactly one placeholder |
| ReconitV2.ListedHasNoPlaceholder | Reconitv2.py:1063 | no whitelisted column name contains `?` |
| ReconitV2.ListingPlaceholders | Reconitv2.py:1053-1058 | both base queries hold one placeholder and their `ORDER BY`s none |
| ReconitV2.UnlistedKeyIgnored | Reconitv2.py:1063 | appending a filter that is not whitelisted leaves the query and parameters unchanged |
| ReconitV2.ListedKeyAdded | Reconitv2.py:1062-1067 | appending a whitelisted filter adds its clause before the `ORDER BY` and its pattern after the other parameters |
| ListingSql.SqlClear | Reconitv2.py:1091-1105 | the fixed parts of both listing queries hold no `?` |
| Admin.ExecRm | Reconitv2.py:74-113 | the tables become `Rm` of the old ones; an unknown kind changes and reports nothing; otherwise one found/not-found report per name |
| Admin.ExecRmOne | Reconitv2.py:76-113 | one name removed, reporting whether it was found |
| Admin.ReportsAt | Reconitv2.py:76-113 | one report per name, each saying whether the name was found after the earlier names were removed |
| Admin.RmStep | Reconitv2.py:76-90 | one more name is removed from the tables the earlier names left |
| Admin.RmUnknownKind | Reconitv2.py:114-115 | an unknown kind changes nothing |
| Admin.RmValid | Reconit.py:179-218 | `rm` keeps the schema invariant and leaves details and id counters alone |
| Admin.RmOneValid | Reconitv2.py:76-113 | removing one name keeps the invariant |
| Admin.ProgramsDistinct | setup_database.py:15 | in valid tables two program rows share a name iff they are the same row, and likewise for ids |
| Admin.DomainsDistinct | setup_database.py:24 | in valid tables two domain rows share a name iff they are the same row, and likewise for ids |
| Admin.RmProgramEffect | Reconitv2.py:76-85 | exactly the named program and its domains go; the details stay |
| Admin.RmDomainExact | Reconitv2.py:103-111 | exactly the named domain goes; programs and details stay |
| Admin.RmDomainWildcard | Reconitv2.py:91-100 | a wildcard name removes exactly the domains ending in `.<pattern>` up to ASCII case; the apex itself stays |
| Admin.WildcardPatternOf | Reconitv2.py:93-94 | `*.example.com` becomes the LIKE pattern `%.example.com` |
| Admin.ExecAddCom | Reconitv2.py:903-930 | the tables become `AddCom` of the old ones; reports whether the target was found |
| Admin.AddComProgram | Reconitv2.py:903-913 | the named program gets the comment; every other row is unchanged |
| Admin.AddComDomain | Reconitv2.py:916-926 | every details row of the named domain gets the comment; every other row is unchanged |
| Admin.AddComValid | Reconit.py:221-253 | `add_com` keeps the schema invariant |
| Admin.AddProgram | Reconitv2.py:695 | the program is inserted unless it exists |
| Admin.AddProgramChecked | Reconit.py:556-564 | reports an addition iff the program was new, and then inserts it |
| Reconit.EnumDomain | Reconit.py:54-86 | every line the mode's tools printed, crt.sh included, once each, sorted, joined by line breaks |
| Reconit.PassiveFindsMore | Reconit.py:57-73 | the passive finds are those of the other shell plus the crt.sh lines |
| Reconit.ExecAddUrl | Reconit.py:112-133 | the tables become `AddUrl` of the old ones; reports whether the program exists |
| Reconit.AddUrlAppends | Reconit.py:117-129 | a url without line breaks is appended to the program's url list; other programs, domains and details are unchanged |
| Reconit.StoredUrlList | Reconit.py:121-128 | the stored text reads back as the old list plus the new url |
| Reconit.GroupByPhash | Reconit.py:302-308 | the groups are keyed by phash in order of first appearance, and each holds the rows with that hash in order |
| Reconit.FirstKeysExact | Reconit.py:306-307 | a hash is a key iff some row has it, and no key repeats |
| Reconit.FirstKeysOrdered | Reconit.py:306-307 | keys appear in the order of their first rows |
| Reconit.GroupExact | Reconit.py:306-308 | a group holds exactly the rows with its hash |
| Reconit.WarnedIffShared | Reconit.py:310-312 | a hash is warned about iff more than one row carries it |

## Left out

- **Processes, files, the browser and image hashing.** Each is a parameter.
  - Writing and deleting `file.txt` and `ips.txt` is not modelled. Only the text written to `ips.txt` is.
  - The httpx and naabu command lines are constants inside the parameter.
- **Concurrency.** The thread pools of the three collectors run one host after another. Only the resulting maps are used afterwards, so order does not matter.
- **Set order in `maintest`.** `list(set(...))` hands naabu the addresses in an unspecified order. The model uses ascending order.
- **Console and HTML output.** Console messages, colours, imgcat and the HTML report are not modelled, apart from the method, technology and port cells. `rm`, `add_com`, `add_program` and `add_url` report their messages only as found flags.
- **ORDER BY in `show`.** The rows `show` groups are its input. Its `ORDER BY` and the screenshot display are not modelled.
  - Its query names `domain_details.phash` twice. Both copies hold the same value, so the row has one phash field.
- **Running the listing queries.** `llist` is modelled up to the query text and parameters, not their evaluation.
  - A filter on `ssltls` names a column the schema does not create, and would fail in SQLite.
- **Regular expressions.** The httpx pattern is modelled with its lazy groups read up to the first `] [` (or `]`). A title holding `] [` is outside the model.
  - `\w` and `\d` (enum_task.py:139 and 308) are modelled as ASCII classes (`Httpx.IsWordChar`, `Text.IsDigit`). Python's `str` patterns also match non-ASCII word characters and digits, and `int()` accepts non-ASCII digits. Lines that rely on them are not modelled.
  - The `domain_principal` search result is unused by the code and is not modelled.
- **Line splitting.** `splitlines` is modelled as splitting on `\n` only.
- **Case mapping.** `upper` and `lower` are ASCII-only.
- **Ids after an ignored insert.** The model keeps one counter per table. A new row gets the id one past it (`Store.InsertProgram`, `Store.InsertOrIgnoreDomain`, `Pipeline.NewHostStored`), and an `INSERT OR IGNORE` that is ignored leaves it alone. SQLite's AUTOINCREMENT only promises ids above every id used before, and an ignored or failed insert may use one up. The exact id values are therefore the model's choice. The ordering and uniqueness of ids (`Store.Valid`) hold either way.
- **SQLite.** Schema creation, foreign keys, `ON DELETE CASCADE` (off by default in SQLite) and type affinity are not modelled.
  - The `programs.url` column that `add_url` uses is never created by `setup_database.py`. It is modelled as an optional column.
- **Admin.RmDomainWildcard:** stated only when the pattern after removing `*.` holds no LIKE wildcard (`%` or `_`). With one, `LIKE` matches more, and `RmDomain` still models it.
- **Reconit.AddUrlAppends:** stated for urls without line breaks. A url holding `\n` reads back as several entries.
- **Other commands.** `search`, `show`'s display, screenshots in the terminal, the web server, and the commands outside the listed ones are not part of this model.
