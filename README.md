# TonerTrack core, modelled in Dafny

TonerTrack keeps a database of network printers. The database is a JSON object that maps each
IPv4 address to a printer record. TonerTrack polls each printer over SNMP (supply levels, alerts,
page counter) and classifies it as OK, Warning, Error or Offline. It also imports printers found
on a Windows print server. This project models that core and proves its properties:

- `supplies.dfy` (`Supplies`): the supply percentage, the supply category and the
  alert-severity label.
- `snmp.dfy` (`Snmp`): the SNMP GET and WALK helpers against a device given as an oracle
  (`Agent`). A WALK consumes the stream of GetNext responses the device would send.
- `printer_status.dfy` (`PrinterStatus`): `get_printer_status_sync`. It turns one device's
  answers into a snapshot and records the queries it issues.
- `health.dfy` (`Health`):
  - `evaluate_status`;
  - the per-printer update of a poll, with its debounce of 3 unreachable polls before Offline.
- `import_discovered.py`'s merge loop (`ImportMerge`, in `import_discovered.dfy`). The two
  import endpoints of `main.py` share it.
- `store.dfy` (`Store`): the endpoints of `main.py` that change or summarise the database.
  Each one takes the database as loaded and returns the database it saves.
- `discovery.dfy` (`PrinterDiscovery`):
  - the IPv4 extraction from port names, with its regular expression modelled over ASCII
    digits and word characters;
  - the print-server name normalisation;
  - the shaping of PowerShell output into discovered entries;
  - the choice of discovery method.
- `dicts.dfy` (`Dicts`) and `text.dfy` (`Text`): Python dictionaries and the string
  operations used.
  - A dictionary is a sequence of pairs with unique keys. A new key goes last and an existing
    key keeps its place. `evaluate_status` depends on this order.
  - `wrappers.dfy` holds `Option` and `Result`.

Most loops in the source are methods with loop invariants. Each such method is proved equal to
a specification function. Most of those fold over the prefix. The exceptions are functions: the two scans
of `evaluate_status` (`Health.EvaluateStatus`, `Health.FirstLowIndex`) and the validation loop
of `import_printers` (inside `Store.ImportPrinters`). They only compute a value and return
early. The properties are stated as lemmas about the specification functions.

## Model

| member | source | states |
|---|---|---|
| Supplies.RoundHalfEven | snmp_utils.py:200 | `round` of the exact quotient: the result is within half a unit of `n/d`, and an exact tie goes to the even integer |
| Supplies.RoundPercentBounds | snmp_utils.py:199-200 | a level between 0 and the maximum gives a percentage between 0 and 100 |
| Supplies.CalculatePercentage | snmp_utils.py:189-204 | "Invalid" exactly when either text is not an integer. A "%" result exactly when both parse, the level is neither sentinel -2 nor -3, and the maximum is positive |
| Supplies.PercentageSentinels | snmp_utils.py:195-198 | level -2 gives "Unknown" and level -3 gives "OK", whatever the maximum |
| Supplies.PercentageOfMax | snmp_utils.py:199-202 | a measured level with a positive maximum yields the nearest integer percentage, 0..100 when the level is within range. A maximum of 0 or less gives "N/A" |
| Supplies.CategorizeSupply | snmp_utils.py:207-216 | the category is one of the three groups |
| Supplies.CategorizeSupplyMatching | snmp_utils.py:207-216 | matching ignores letter case. Toner exactly when "toner" occurs. Drum exactly when "drum" occurs and "toner" does not |
| Supplies.MapSeverity | snmp_utils.py:219-228 | "1" gives "Other", "2" gives "Unknown", "5" gives "Info". "Critical" exactly for "3" (or "Critical" itself), "Warning" exactly for "4" (or itself). Any other code is returned unchanged |
| Snmp.SnmpGet | snmp_utils.py:46-95 | a value exactly when the community string matches and the device holds the OID, and then it is the device's value for that OID |
| Snmp.WalkSync | snmp_utils.py:98-147 | the walk loop returns what the response stream determines (the specification function `Walk`) |
| Snmp.WalkIsLeadingPrefix | snmp_utils.py:124-142 | a walk keeps, in order, the var-binds received before the first failed response, up to the first OID that does not start with the base. Every kept OID starts with the base |
| Snmp.WalkStopsAtForeignOid | snmp_utils.py:138-141 | nothing received after an OID outside the base is kept |
| Snmp.WalkExample | snmp_utils.py:138-141 | a description column entry followed by the next column's entry yields only the first |
| Snmp.WalkTextualPrefix | snmp_utils.py:139-140 | the base test is textual: base `...1.1.8` also accepts column `...1.1.80` |
| PrinterStatus.CollectSupplies | snmp_utils.py:290-317 | the supply loop computes `SupplyLevels` and issues two GETs for each listed supply |
| PrinterStatus.CollectAlerts | snmp_utils.py:327-335 | the alert loop computes `ActiveAlerts` |
| PrinterStatus.GetPrinterStatusSync | snmp_utils.py:235-344 | the snapshot and the issued queries equal `Status` and `Issued`. The unreachable flag is set exactly when the library is available and sysDescr has no answer, and then nothing else is queried and every field is "N/A" or empty |
| PrinterStatus.WrongCommunityUnreachable | snmp_utils.py:254-267 | a wrong community string looks like a silent device: a single sysDescr GET, then the unreachable snapshot |
| PrinterStatus.ActiveAlertsReported | snmp_utils.py:327-335 | a description is reported exactly when some alert with that description maps to Critical or Warning. Every reported label is one of those two |
| PrinterStatus.ActiveAlertsLastWins | snmp_utils.py:334-335 | when several alerts share a description, the last Critical or Warning one decides its label |
| PrinterStatus.AlertWithoutSeverityDropped | snmp_utils.py:330-333 | an alert with no matching severity OID maps to "Unknown" and is not reported |
| PrinterStatus.SupplyPlacement | snmp_utils.py:307-317 | every stored supply lies in the group its name categorises to. Every supply with a name, a level and a maximum is stored under its stripped name |
| PrinterStatus.SupplyLevelsReported | snmp_utils.py:290-317 | a stripped name is stored in its group exactly when some listed description with a non-empty level and maximum strips to it. The stored value is the percentage of the last such description |
| PrinterStatus.SupplyKeysCounted | snmp_utils.py:290-317 | every stored supply name comes from a listed description with a non-empty level and maximum |
| PrinterStatus.SupplyGroupsDisjoint | snmp_utils.py:309-317 | the toner, drum and other groups share no supply name |
| PrinterStatus.UnlistedSupplySkipped | snmp_utils.py:297-299 | an empty or "unknown" description issues no query and changes no group |
| Health.FirstLowIndex | main.py:148-156 | None exactly when no value is a "%" level below 20. Otherwise the index of the first such value |
| Health.EvaluateStatus | main.py:130-160 | the result is OK, Warning or Error |
| Health.EvaluateStatusAlerts | main.py:136-142 | with alerts present: Error exactly when some alert is Critical, otherwise Warning, never OK, and the supplies play no part |
| Health.EvaluateStatusOk | main.py:136-160 | OK exactly when there are no alerts and no toner or drum value is a level below 20% |
| Health.EvaluateStatusFirstLow | main.py:145-158 | without alerts, the first low value in toner-then-drum order decides: Error below 10, otherwise Warning |
| Health.LevelOfPercent | main.py:150-152 | a formatted `n%` reads back as level `n` |
| Health.CalculatedLevelReadBack | main.py:150-152 | the percentage computed from a device's level and maximum reads back as the rounded level |
| Health.SingleTonerThresholds | main.py:153-160 | a single toner at `n`% gives Error below 10, Warning below 20, OK otherwise |
| Health.ThresholdBoundaries | main.py:153-156 | 9% gives Error, 10% and 19% give Warning, 20% gives OK |
| Health.TonerScannedBeforeDrums | main.py:148-156 | a 15% toner before a 5% drum gives Warning, because toner is scanned first |
| Health.ReconcileUnreachable | main.py:267-277 | an unreachable answer adds one attempt and stamps the time. The printer becomes Offline at 3 attempts and keeps its status below that. Readings and identity are untouched |
| Health.ReconcileReachable | main.py:280-295 | an answer resets the count to 0, copies every reading, stamps the time and sets the status `evaluate_status` gives, never Offline |
| Health.ReconcileRaised | main.py:297-302 | an exception marks the printer Offline with a new timestamp and changes nothing else |
| Health.DebounceCount | main.py:268-273 | after `k` unanswered polls the count has grown by `k`. The status is kept while the count is below 3 and is Offline from 3 on |
| Health.ThirdSilentPollGoesOffline | main.py:35 | a fresh printer keeps its status through two silent polls and is Offline on the third |
| Health.NoSnmpLibraryWarns | snmp_utils.py:243-252 | without the SNMP library every poll shows Warning, because of the "SNMP Error" alert |
| Health.UnknownAddressUnreachable | snmp_utils.py:254-267 | an address with no device yields the unreachable snapshot |
| Health.Reconcile | main.py:266-302 | the name, address and community are kept and the time is stamped. An exception gives Offline. An unreachable answer adds one attempt and gives Offline from 3 attempts. An answer resets the count to 0 and never gives Offline |
| ImportMerge.MergeDiscovered | import_discovered.py:38-66 | the merge loop computes `Merge` (database, imported, skipped) |
| ImportMerge.MergeCounts | import_discovered.py:38-66 | the database grows by exactly the imported count and gains exactly the usable addresses. imported + skipped is the number of usable entries, at most the number of entries |
| ImportMerge.MergeKeepsExisting | import_discovered.py:45-48 | a record already in the database is never changed |
| ImportMerge.MergeIgnoresUnusable | import_discovered.py:39-43 | an entry without an address or a name changes nothing, counters included |
| ImportMerge.MergeFirstOccurrenceStored | import_discovered.py:45-63 | a new address is stored from its first usable entry; later duplicates are skipped |
| ImportMerge.MergeFirstOccurrenceWins | import_discovered.py:50-63 | the new record has the entry's name and address, community "public", status "Unknown", timestamp "Never", "N/A" readings and empty maps |
| Store.AddPrinter | main.py:197-222 | 400 exactly when the address is known. Otherwise the fresh record is appended and nothing else changes |
| Store.UpdatePrinter | main.py:224-238 | 404 exactly when the address is unknown. Otherwise the given name and community replace the old ones and every other field and record is unchanged |
| Store.DeletePrinter | main.py:240-250 | 404 exactly when the address is unknown. Otherwise exactly that record is removed |
| Store.AddThenDelete | main.py:197-250 | deleting a printer that was just added restores the database |
| Store.ImportPrinters | main.py:418-434 | 400 exactly when some record lacks "name" or "ip". Otherwise imported records replace or join existing ones, the rest are kept, and the count is the number imported |
| Store.PollPrinter | main.py:252-302 | 404 for an unknown address with nothing saved. Otherwise only that record is replaced by its reconciled value, and the answer is 500 exactly when polling raised |
| Store.Polled | main.py:252-302 | the name, address and community are kept and the time is stamped. A crashing device gives Offline. An address with no device adds one offline attempt. Without the SNMP library a device that does not crash shows Warning |
| Store.PollEach | main.py:328-362 | the bulk poll keeps every address in its place |
| Store.PollEachPerDevice | main.py:328-362 | each record's new value depends only on that record and its own device |
| Store.PollAll | main.py:315-366 | the task completes exactly when every record has a name, and then saves every record reconciled. Otherwise it saves nothing |
| Store.ImportDiscoveredPrinters | main.py:534-579 | the merge with community "public". The reported total is the new database size |
| Store.ImportDiscovered | main.py:619-662 | the merge keeping each entry's community. The reported total is the number of entries sent |
| Store.GetStats | main.py:436-457 | the counters are `Tally` of the lower-cased statuses (a missing status counts as "unknown"). "ok", "warning", "error" and "offline" each count the records with that status. "unknown" counts the records whose status is "unknown" or names no counter. The total is the record count plus the records whose status is "total" |
| Store.TallyCounts | main.py:450-455 | each counter counts exactly the keys that name it, "unknown" also takes every key that names no counter, and a "total" key raises the total |
| Store.TallyPartition | main.py:450-455 | with no status "total", the total is the record count and the five buckets add up to it |
| Store.TotalStatusCounterexample | main.py:450-455 | one record with status "Total" makes total 2 with empty buckets |
| Store.TallyIntendedPartition | main.py:450-455 | intended counting: for any statuses the total is the record count and the buckets add up to it |
| Store.TallyIntendedCounts | main.py:450-455 | intended counting: each of the four named buckets counts its own status, "unknown" takes "unknown", "total" and every unrecognised status, and the total is the record count |
| Store.TallyAgrees | main.py:450-455 | intended and written counting agree when no status reads "total" |
| PrinterDiscovery.MatchAtSound | printer_discovery.py:135-136 | a match found at `p` is a match of the pattern (four 1-3 digit groups, dots, word boundaries) |
| PrinterDiscovery.MatchAtComplete | printer_discovery.py:135-136 | every match of the pattern at `p` is found, with the same end |
| PrinterDiscovery.Search | printer_discovery.py:136 | the leftmost match at or after `p`; no match starts before it |
| PrinterDiscovery.ExtractIp | printer_discovery.py:129-147 | a returned address has four octets of 1-3 digits, each at most 255 |
| PrinterDiscovery.ValidIPv4Joined | printer_discovery.py:141-145 | an accepted address is its four octets joined by three dots, 7 to 15 characters long |
| PrinterDiscovery.ExtractIpNoMatch | printer_discovery.py:138-147 | no match anywhere gives None |
| PrinterDiscovery.ExtractIpLeftmost | printer_discovery.py:136-145 | a result is the leftmost match. A leftmost match that is not a valid address gives None, and later matches are not tried |
| PrinterDiscovery.GluedQuadNotMatched | printer_discovery.py:135 | a quad preceded by a letter, digit or underscore does not match there |
| PrinterDiscovery.UnderscorePrefixedPort | printer_discovery.py:129-147 | "IP_192.168.1.100" yields None |
| PrinterDiscovery.BareAddress | printer_discovery.py:129-147 | "192.168.1.100" yields itself |
| PrinterDiscovery.FirstMatchOnly | printer_discovery.py:136-147 | "999.1.1.1 10.0.0.1" yields None |
| PrinterDiscovery.ExtractIpIntended | printer_discovery.py:129-147 | corrected extraction: a returned address is valid |
| PrinterDiscovery.ExtractIpIntendedAgrees | printer_discovery.py:129-147 | without underscores the corrected and the written extraction agree |
| PrinterDiscovery.ExtractIpIntendedPrefixed | printer_discovery.py:130-132 | an address extracted from a bare port name is extracted by the corrected code from "IP_" plus that address |
| PrinterDiscovery.NormalizeServerNameIdempotent | printer_discovery.py:25-26 | the result starts with the UNC prefix. Normalising twice equals once. A prefixed name is unchanged, and otherwise the prefix is prepended to the name |
| PrinterDiscovery.NormalizeServerName | printer_discovery.py:25-26 | the result starts with the UNC prefix `\\`. It is the name itself or the name with that prefix put in front |
| PrinterDiscovery.ShapeItems | printer_discovery.py:80-106 | the loop over one query's objects computes `Shape` |
| PrinterDiscovery.PortEntry | printer_discovery.py:82-91 | at most one entry, given exactly when the port has a host address. The entry has that address, the port's name as port name, and a non-empty name |
| PrinterDiscovery.PrinterEntry | printer_discovery.py:94-106 | at most one entry, given exactly when an address can be extracted from the port name. The entry has the printer's name, the port name and that address, which is valid |
| PrinterDiscovery.DiscoverFromWindowsPrintServer | printer_discovery.py:12-126 | the result is `FromPrintServer`: the queries are tried in order on the normalised name |
| PrinterDiscovery.ShapedEntries | printer_discovery.py:80-106 | no more entries than objects. Every entry has an address. Port entries have a name. Printer entries carry a valid address read from their own port name |
| PrinterDiscovery.EmptyHostDropped | printer_discovery.py:82-86 | a port without a host address gives no entry |
| PrinterDiscovery.NamelessPortFallback | printer_discovery.py:86-91 | a nameless port is named "Printer_" plus its address with "_" for "." |
| PrinterDiscovery.PortWithoutAddressDropped | printer_discovery.py:94-101 | a printer whose port name holds no valid address gives no entry |
| PrinterDiscovery.FirstFoundOrder | printer_discovery.py:40-112 | the first query with entries decides, and the earlier ones failed or gave none. The result is empty exactly when every query failed or gave nothing |
| PrinterDiscovery.DiscoverPrinters | printer_discovery.py:274-305 | an error exactly for an unknown method, a print-server call without a server name, or a network scan without a subnet, each with the source's message. Otherwise the call gets the arguments the source passes on |

## Left out

- Network I/O, timeouts, retries and the SNMP engine are not modelled. A device is an oracle
  (`Snmp.Agent`): a GET answers from a table, and a WALK consumes a given stream of GetNext
  responses. A wrong community gets no answer.
- The clock is a parameter (`now`), and reading and writing the JSON file is the value-passing
  database. The async wrapper, the lock, the `is_polling` flag, the automatic polling loop and
  the log output are left out.
- `Store.PollEach` and `Store.PollAll` stamp every record with the same `now`. The source reads
  the clock once per printer (main.py:337, 356, 363), so its timestamps can differ from record
  to record.
- When `poll_all_printers_task` aborts (a record without "name"), `is_polling` stays set. That
  is not modelled.
- PowerShell is an oracle (`PrinterDiscovery.Shell`) from a query to a failure or the parsed
  objects. Two cases that raise mid-loop are not modelled. One is a non-object item in
  PowerShell's output. The other is a "PortName" that is `null` or not a string, which makes
  `re.search` raise `TypeError` (printer_discovery.py:99, 136). `PrinterDiscovery.JsonObject`
  holds only string fields, so neither can be expressed.
- `discover_from_wmi`, `network_scan_for_printers` and `discover_printers`' `timeout` keyword are
  not part of this model. `PrinterDiscovery.DiscoverPrinters` returns the call it dispatches to.
- The discovery endpoints of `main.py` that call into the discovery module (`/api/discover`,
  `/api/discover/scan`, `/api/discover/print-server`) and `/api/test-snmp` are not part of this
  model.
- Text.ParseInt: accepts an optional sign and ASCII digits only. Python's `int` also accepts
  surrounding whitespace, `_` between digits and non-ASCII digits. Since Python 3.11 `int`
  raises `ValueError` on a text of more than 4300 digits. The source then returns "Invalid"
  from `_calculate_percentage` and skips the value in `evaluate_status`. The model parses
  such a text.
- Text.Lower: ASCII letters only. `PrinterDiscovery.AtBoundary` uses the ASCII word
  characters, while Python's `\w` is Unicode.
- PrinterDiscovery.MatchAt: `\d` is ASCII digits only. Python's `\d` also matches other Unicode
  decimal digits, so on "١.١.١.١ 10.0.0.1" Python matches the Arabic-Indic quad first,
  `ipaddress` rejects it and the result is None. The model skips that quad and returns
  "10.0.0.1".
- PrinterDiscovery.ValidIPv4: does not model the rejection of octets with a leading zero by
  `ipaddress.ip_address`, such as "01.2.3.4".
- Supplies.RoundHalfEven: rounds the exact quotient. Python rounds the floating-point value of
  `level / max * 100`, which can differ on a near-tie. A level so much larger than the maximum
  that `level / max * 100` exceeds the float range makes Python raise `OverflowError`, or makes
  `round` fail on infinity. Line 203 does not catch either. The model has no such case. Two
  32-bit `Integer32` readings never get that far apart.
- JSON `null` is treated as a missing key: every record field is an `Option`. A `null`
  "errors" is falsy in `evaluate_status` (main.py:136-137) and is read as empty, as in the
  source. A `null` "toner_cartridges" or "drum_units" would crash `evaluate_status`. The model
  reads it as empty. A poll that gets an answer overwrites both fields (main.py:286-292). An
  explicit `null` community in `add_printer` is not modelled.
- Store.ImportPrinters: a record with `"name": null` or `"ip": null` is rejected with 400. The
  source only tests that the keys are present (main.py:424), so it accepts such a record.
- Store.PollAll: a record with `"name": null` aborts the task and nothing is saved. The source
  prints "None" for it (main.py:342, 359, 364), completes the poll and saves.
- Health.Reconcile: a `null` "offline_attempts" counts as 0, so an unreachable answer gives 1.
  In the source `None + 1` raises `TypeError` (main.py:268, 335). Its except path marks the
  printer Offline: `poll_printer` answers 500, and the bulk poll moves to the next printer.
- Store.Polled: a `null` community is polled with "public". The source passes `None` on to the
  SNMP call (main.py:261, 329).
- ImportMerge.DiscoveredRecord: an entry with `"community": null` gets "public". The source
  stores `None` (main.py:643).
- Health.EvaluateStatus: supply values are strings. The source's `isinstance` check for
  non-string values is not modelled.
- Store.GetStats: a status that is not a string (a crash at `.lower()`) is not modelled.
- There is no usage ledger or manual override in the source, so none is modelled.

## Findings

| source | as written | input that shows it | evidently intended | confidence | as-written member | corrected member |
|---|---|---|---|---|---|---|
| main.py:450-455 | `if status in stats` also matches the "total" key, so a printer whose status reads "Total" (any case) increments the total instead of a bucket | one printer with status "Total": total 2, all buckets 0 | only the five status buckets are matched, and "total" counts as unknown | high (not executed) | Store.TotalStatusCounterexample | Store.TallyIntendedPartition |
| printer_discovery.py:130-136 | `\b` sees no boundary between "_" and a digit, so a standard port name "IP_192.168.1.100", which the function's own documentation lists, yields None | "IP_192.168.1.100" | the address after "IP_" is extracted | high (not executed) | PrinterDiscovery.UnderscorePrefixedPort | PrinterDiscovery.ExtractIpIntendedPrefixed |
