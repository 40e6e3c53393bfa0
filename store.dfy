/**
 * The printer database endpoints of main.py, over the loaded database: each
 * endpoint takes the database as loaded and gives back the database it saves.
 */
module Store {
  import opened Wrappers
  import opened Text
  import opened Dicts
  import opened PrinterStatus
  import opened Health
  import opened ImportMerge

  /** The HTTP errors the endpoints raise: 400, 404 and 500. */
  datatype ApiError = BadRequest(detail: string) | NotFound(detail: string) | Internal(detail: string)

  function StatusCode(e: ApiError): int {
    match e
    case BadRequest(_) => 400
    case NotFound(_) => 404
    case Internal(_) => 500
  }

  const PrinterNotFound := NotFound("Printer not found")

  /** The record `add_printer` stores. */
  function NewPrinter(name: string, ip: string, community: string): Printer {
    Printer(
      Some(name), Some(ip), Some(community), Some("N/A"), Some("N/A"), Some("Unknown"), Some("Never"),
      Some([]), Some([]), Some([]), Some([]), Some("N/A"), Some(0))
  }

  /** `add_printer`: refuses a known address, otherwise appends a fresh record. */
  function AddPrinter(db: Printers, name: string, ip: string, community: string): (r: Result<Printers, ApiError>)
    ensures r.Err? <==> ip in KeySet(db)
    ensures r.Err? ==> StatusCode(r.error) == 400
    ensures r.Ok? ==> r.value == db + [(ip, NewPrinter(name, ip, community))]
    ensures r.Ok? ==>
      (Get(r.value, ip) == Some(NewPrinter(name, ip, community)) && forall k | k != ip :: Get(r.value, k) == Get(db, k))
  {
    if ip in KeySet(db) then Err(BadRequest("Printer with this IP already exists"))
    else
      PutNewAppends(db, ip, NewPrinter(name, ip, community));
      Ok(Put(db, ip, NewPrinter(name, ip, community)))
  }

  /** `update_printer`: replaces the name and the community where given. */
  function UpdatePrinter(db: Printers, ip: string, name: Option<string>, community: Option<string>): (r: Result<Printers, ApiError>)
    ensures r.Err? <==> ip !in KeySet(db)
    ensures r.Err? ==> r.error == PrinterNotFound
    ensures r.Ok? ==>
      (KeySet(r.value) == KeySet(db) && |r.value| == |db|
       && (forall k | k != ip :: Get(r.value, k) == Get(db, k))
       && var p := Get(db, ip).value; var q := Get(r.value, ip).value;
          q.name == (if name.Some? then name else p.name)
          && q.community == (if community.Some? then community else p.community)
          && q.(name := p.name, community := p.community) == p)
  {
    if ip !in KeySet(db) then Err(PrinterNotFound)
    else
      var p := Get(db, ip).value;
      var p1 := if name.Some? then p.(name := name) else p;
      var p2 := if community.Some? then p1.(community := community) else p1;
      Ok(Put(db, ip, p2))
  }

  /** `delete_printer` */
  function DeletePrinter(db: Printers, ip: string): (r: Result<Printers, ApiError>)
    ensures r.Err? <==> ip !in KeySet(db)
    ensures r.Err? ==> r.error == PrinterNotFound
    ensures r.Ok? ==>
      (KeySet(r.value) == KeySet(db) - {ip} && |r.value| == |db| - 1
       && forall k | k != ip :: Get(r.value, k) == Get(db, k))
  {
    if ip !in KeySet(db) then Err(PrinterNotFound) else Ok(Remove(db, ip))
  }

  /** Deleting a printer that was just added gives back the database as it was. */
  lemma AddThenDelete(db: Printers, name: string, ip: string, community: string)
    requires ip !in KeySet(db)
    ensures AddPrinter(db, name, ip, community).Ok?
    ensures DeletePrinter(AddPrinter(db, name, ip, community).value, ip) == Ok(db)
  {
    RemovePutNew(db, ip, NewPrinter(name, ip, community));
  }

  /** A record `import_printers` accepts: it has a "name" and an "ip" key. */
  predicate Importable(p: Printer) { p.name.Some? && p.ip.Some? }

  /** `import_printers`: all records must be importable, then `printers.update(data)`;
      the count is the number of imported records. */
  function ImportPrinters(db: Printers, data: Printers): (r: Result<(Printers, nat), ApiError>)
    ensures r.Err? <==> exists i | 0 <= i < |data| :: !Importable(data[i].1)
    ensures r.Err? ==> StatusCode(r.error) == 400
    ensures r.Ok? ==>
      (r.value.1 == |data| && KeySet(r.value.0) == KeySet(db) + KeySet(data)
       && forall k :: Get(r.value.0, k) == if k in KeySet(data) then Get(data, k) else Get(db, k))
  {
    if exists i | 0 <= i < |data| :: !Importable(data[i].1) then Err(BadRequest("Invalid printer data structure"))
    else Ok((Update(db, data), |data|))
  }

  /** The outcome of one device's poll, given the network and the clock. */
  function Polled(p: Printer, ip: string, net: map<string, Endpoint>, available: bool, now: string): (r: Printer)
    ensures SameIdentity(p, r) && r.timestamp == Some(now)
    ensures ip in net && net[ip] == Crashes ==> r.status == Some("Offline")
    ensures ip !in net && available ==> r.offlineAttempts == Some(p.offlineAttempts.GetOr(0) + 1)
    ensures !available && !(ip in net && net[ip] == Crashes) ==> r.status == Some("Warning")
  {
    NoSnmpLibraryWarns(p, now);
    Reconcile(p, ProbeOf(net, ip, p.community.GetOr("public"), available), now)
  }

  /** `poll_printer(ip)`: 404 for an unknown address; otherwise the record is reconciled with the
      device's answer and saved; an exception while polling also answers 500. */
  method PollPrinter(db: Printers, ip: string, net: map<string, Endpoint>, available: bool, now: string)
    returns (saved: Printers, r: Result<Printer, ApiError>)
    ensures ip !in KeySet(db) ==> saved == db && r == Err(PrinterNotFound)
    ensures ip in KeySet(db) ==>
      var p := Get(db, ip).value;
      var q := Polled(p, ip, net, available, now);
      KeySet(saved) == KeySet(db) && Get(saved, ip) == Some(q)
      && (forall k | k != ip :: Get(saved, k) == Get(db, k))
      && (r.Err? <==> ProbeOf(net, ip, p.community.GetOr("public"), available) == Raised)
      && (r.Err? ==> StatusCode(r.error) == 500)
      && (r.Ok? ==> r.value == q)
  {
    if ip !in KeySet(db) {
      return db, Err(PrinterNotFound);
    }
    var printer := Get(db, ip).value;
    var community := printer.community.GetOr("public");
    var probe := ProbeOf(net, ip, community, available);
    printer := Reconcile(printer, probe, now);
    saved := Put(db, ip, printer);
    if probe == Raised {
      r := Err(Internal("Failed to poll printer"));
    } else {
      r := Ok(printer);
    }
  }

  /** Every record polled, in place. */
  function PollEach(db: Printers, net: map<string, Endpoint>, available: bool, now: string): (r: Printers)
    ensures |r| == |db| && forall i | 0 <= i < |db| :: r[i].0 == db[i].0
  {
    seq(|db|, i requires 0 <= i < |db| => (db[i].0, Polled(db[i].1, db[i].0, net, available, now)))
  }

  /** A bulk poll treats each device on its own: a record's new value depends only on that record
      and that device, whatever the others do, crashes included. */
  lemma PollEachPerDevice(db: Printers, net: map<string, Endpoint>, available: bool, now: string, k: string)
    requires k in KeySet(db)
    ensures KeySet(PollEach(db, net, available, now)) == KeySet(db)
    ensures Get(PollEach(db, net, available, now), k) == Some(Polled(Get(db, k).value, k, net, available, now))
  {
    var r := PollEach(db, net, available, now);
    var i :| 0 <= i < |db| && db[i].0 == k;
    GetAt(db, i);
    GetAt(r, i);
    assert r[i] == (k, Polled(db[i].1, k, net, available, now));
    forall x | x in KeySet(r) ensures x in KeySet(db) {
      var j :| 0 <= j < |r| && r[j].0 == x;
      assert db[j].0 == x;
    }
    forall x | x in KeySet(db) ensures x in KeySet(r) {
      var j :| 0 <= j < |db| && db[j].0 == x;
      assert r[j].0 == x;
    }
  }

  /** `poll_all_printers_task`: polls every printer in order and saves once at the end. A record
      without a "name" key makes the progress message fail inside the exception handler, which ends
      the task before the save. */
  method PollAll(db: Printers, net: map<string, Endpoint>, available: bool, now: string)
    returns (saved: Printers, completed: bool)
    ensures completed <==> forall i | 0 <= i < |db| :: db[i].1.name.Some?
    ensures saved == if completed then PollEach(db, net, available, now) else db
  {
    var printers: seq<(string, Printer)> := db;
    for i := 0 to |db|
      invariant |printers| == |db|
      invariant forall j | 0 <= j < |db| ::
        printers[j] == if j < i then (db[j].0, Polled(db[j].1, db[j].0, net, available, now)) else db[j]
      invariant forall j | 0 <= j < i :: db[j].1.name.Some?
    {
      var (ip, printer) := printers[i];
      var community := printer.community.GetOr("public");
      var probe := ProbeOf(net, ip, community, available);
      printer := Reconcile(printer, probe, now);
      if printer.name == None {
        return db, false;
      }
      printers := printers[i := (ip, printer)];
    }
    assert printers == PollEach(db, net, available, now);
    saved, completed := PollEach(db, net, available, now), true;
  }

  /** `import_discovered_printers`: the merge with community "public"; `total` is the new database size. */
  method ImportDiscoveredPrinters(db: Printers, discovered: seq<Entry>)
    returns (saved: Printers, imported: nat, skipped: nat, total: nat)
    ensures Outcome(saved, imported, skipped) == Merge(db, discovered, AlwaysPublic)
    ensures total == |saved| == |db| + imported
  {
    saved, imported, skipped := MergeDiscovered(db, discovered, AlwaysPublic);
    MergeCounts(db, discovered, AlwaysPublic);
    total := |saved|;
  }

  /** `import_discovered`: the merge keeping each entry's community; `total` is the number of
      entries sent, not the database size. */
  method ImportDiscovered(db: Printers, printers: seq<Entry>)
    returns (saved: Printers, added: nat, skipped: nat, total: nat)
    ensures Outcome(saved, added, skipped) == Merge(db, printers, FromEntry)
    ensures total == |printers| && added + skipped <= total
  {
    saved, added, skipped := MergeDiscovered(db, printers, FromEntry);
    MergeCounts(db, printers, FromEntry);
    total := |printers|;
  }

  /** The counters of `get_stats`. */
  datatype Stats = Stats(total: int, ok: int, warning: int, error: int, offline: int, unknown: int)

  /** The key a record is counted under: its lower-cased status, "unknown" when absent. */
  function StatusKey(p: Printer): string { Lower(p.status.GetOr("Unknown")) }

  /** `stats[status] += 1` when `status` is a key of `stats`, else `stats["unknown"] += 1`. */
  function Count(s: Stats, key: string): Stats {
    if key == "total" then s.(total := s.total + 1)
    else if key == "ok" then s.(ok := s.ok + 1)
    else if key == "warning" then s.(warning := s.warning + 1)
    else if key == "error" then s.(error := s.error + 1)
    else if key == "offline" then s.(offline := s.offline + 1)
    else s.(unknown := s.unknown + 1)
  }

  /** The counting loop of `get_stats` over the records' keys, as written. */
  function Tally(keys: seq<string>, total: int): Stats
    decreases |keys|
  {
    if keys == [] then Stats(total, 0, 0, 0, 0, 0)
    else Count(Tally(keys[..|keys| - 1], total), keys[|keys| - 1])
  }

  function Buckets(s: Stats): int { s.ok + s.warning + s.error + s.offline + s.unknown }

  /** How many of `keys` equal `k`. */
  function CountOf(keys: seq<string>, k: string): nat
    decreases |keys|
  {
    if keys == [] then 0
    else CountOf(keys[..|keys| - 1], k) + if keys[|keys| - 1] == k then 1 else 0
  }

  /** The keys of the `stats` dict that `get_stats` starts from. */
  predicate StatsKey(k: string) {
    k == "total" || k == "ok" || k == "warning" || k == "error" || k == "offline" || k == "unknown"
  }

  /** How many of `keys` are none of the `stats` keys. */
  function CountUnrecognised(keys: seq<string>): nat
    decreases |keys|
  {
    if keys == [] then 0
    else CountUnrecognised(keys[..|keys| - 1]) + if StatsKey(keys[|keys| - 1]) then 0 else 1
  }

  /** Each counter counts the records whose key names it; "unknown" also takes every key that
      names no counter; a key "total" raises the total. */
  lemma {:induction false} TallyCounts(keys: seq<string>, total: int)
    ensures var s := Tally(keys, total);
      s.total == total + CountOf(keys, "total")
      && s.ok == CountOf(keys, "ok")
      && s.warning == CountOf(keys, "warning")
      && s.error == CountOf(keys, "error")
      && s.offline == CountOf(keys, "offline")
      && s.unknown == CountOf(keys, "unknown") + CountUnrecognised(keys)
    decreases |keys|
  {
    if keys != [] {
      TallyCounts(keys[..|keys| - 1], total);
    }
  }

  /** `get_stats` */
  method GetStats(db: Printers) returns (stats: Stats)
    ensures stats == Tally(seq(|db|, i requires 0 <= i < |db| => StatusKey(db[i].1)), |db|)
    ensures var keys := seq(|db|, i requires 0 <= i < |db| => StatusKey(db[i].1));
      stats.total == |db| + CountOf(keys, "total")
      && stats.ok == CountOf(keys, "ok") && stats.warning == CountOf(keys, "warning")
      && stats.error == CountOf(keys, "error") && stats.offline == CountOf(keys, "offline")
      && stats.unknown == CountOf(keys, "unknown") + CountUnrecognised(keys)
  {
    ghost var keys := seq(|db|, i requires 0 <= i < |db| => StatusKey(db[i].1));
    stats := Stats(|db|, 0, 0, 0, 0, 0);
    for i := 0 to |db|
      invariant stats == Tally(keys[..i], |db|)
    {
      assert keys[..i + 1][..i] == keys[..i];
      var status := Lower(db[i].1.status.GetOr("Unknown"));
      if status == "total" {
        stats := stats.(total := stats.total + 1);
      } else if status == "ok" {
        stats := stats.(ok := stats.ok + 1);
      } else if status == "warning" {
        stats := stats.(warning := stats.warning + 1);
      } else if status == "error" {
        stats := stats.(error := stats.error + 1);
      } else if status == "offline" {
        stats := stats.(offline := stats.offline + 1);
      } else {
        stats := stats.(unknown := stats.unknown + 1);
      }
    }
    assert keys[..|db|] == keys;
    TallyCounts(keys, |db|);
  }

  /** When no status reads "total", the total is the record count and the buckets add up to it
      (which bucket each record lands in is `TallyCounts`). */
  lemma {:induction false} TallyPartition(keys: seq<string>, total: int)
    requires forall i | 0 <= i < |keys| :: keys[i] != "total"
    ensures Tally(keys, total).total == total
    ensures Buckets(Tally(keys, total)) == |keys|
    decreases |keys|
  {
    if keys != [] {
      TallyPartition(keys[..|keys| - 1], total);
    }
  }

  /** A printer whose status is "Total" (any case) raises the total instead of a bucket. */
  lemma TotalStatusCounterexample()
    ensures Tally([Lower("Total")], 1) == Stats(2, 0, 0, 0, 0, 0)
    ensures Buckets(Tally([Lower("Total")], 1)) != Tally([Lower("Total")], 1).total
  {
    assert Lower("Total") == "total";
    assert [Lower("Total")][..0] == [];
  }

  /** The count as evidently intended: only the five status buckets are matched. */
  function CountIntended(s: Stats, key: string): Stats {
    if key == "total" then s.(unknown := s.unknown + 1) else Count(s, key)
  }

  function TallyIntended(keys: seq<string>, total: int): Stats
    decreases |keys|
  {
    if keys == [] then Stats(total, 0, 0, 0, 0, 0)
    else CountIntended(TallyIntended(keys[..|keys| - 1], total), keys[|keys| - 1])
  }

  /** Intended: whatever the statuses, the total stays the record count and the buckets add up to it. */
  lemma {:induction false} TallyIntendedPartition(keys: seq<string>, total: int)
    ensures TallyIntended(keys, total).total == total
    ensures Buckets(TallyIntended(keys, total)) == |keys|
    decreases |keys|
  {
    if keys != [] {
      TallyIntendedPartition(keys[..|keys| - 1], total);
    }
  }

  /** Intended: each counter counts its own status, and "total" joins the unrecognised ones. */
  lemma {:induction false} TallyIntendedCounts(keys: seq<string>, total: int)
    ensures var s := TallyIntended(keys, total);
      s.total == total
      && s.ok == CountOf(keys, "ok")
      && s.warning == CountOf(keys, "warning")
      && s.error == CountOf(keys, "error")
      && s.offline == CountOf(keys, "offline")
      && s.unknown == CountOf(keys, "unknown") + CountOf(keys, "total") + CountUnrecognised(keys)
    decreases |keys|
  {
    if keys != [] {
      TallyIntendedCounts(keys[..|keys| - 1], total);
    }
  }

  /** The two agree unless some status reads "total". */
  lemma {:induction false} TallyAgrees(keys: seq<string>, total: int)
    requires forall i | 0 <= i < |keys| :: keys[i] != "total"
    ensures Tally(keys, total) == TallyIntended(keys, total)
    decreases |keys|
  {
    if keys != [] {
      TallyAgrees(keys[..|keys| - 1], total);
    }
  }
}
