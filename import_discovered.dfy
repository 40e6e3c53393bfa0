/**
 * The merge of discovered printers into the printer database, shared by
 * import_discovered.py and the two import endpoints of main.py: entries
 * without an address or a name are ignored, an address already present is
 * skipped, a new address gets a fresh record.
 */
module ImportMerge {
  import opened Wrappers
  import opened Dicts
  import opened Health

  /** One discovered entry as read from JSON; None is a missing key. */
  datatype Entry = Entry(ip: Option<string>, name: Option<string>, community: Option<string>)

  /** Where the new record's community comes from: always "public" (import_discovered.py and
      `import_discovered_printers`), or the entry's own, defaulting to "public" (`import_discovered`). */
  datatype CommunityPolicy = AlwaysPublic | FromEntry

  /** `if not ip or not name: continue` lets the entry through. */
  predicate Usable(e: Entry) {
    e.ip.Some? && e.ip.value != "" && e.name.Some? && e.name.value != ""
  }

  /** The record a new address receives; it has no `offline_attempts` key. */
  function DiscoveredRecord(e: Entry, policy: CommunityPolicy): Printer
    requires Usable(e)
  {
    var community := if policy == FromEntry then e.community.GetOr("public") else "public";
    Printer(
      e.name, e.ip, Some(community), Some("N/A"), Some("N/A"), Some("Unknown"), Some("Never"),
      Some([]), Some([]), Some([]), Some([]), Some("N/A"), None)
  }

  datatype Outcome = Outcome(db: Printers, imported: nat, skipped: nat)

  function MergeStep(acc: Outcome, e: Entry, policy: CommunityPolicy): Outcome {
    if !Usable(e) then acc
    else if e.ip.value in KeySet(acc.db) then acc.(skipped := acc.skipped + 1)
    else Outcome(Put(acc.db, e.ip.value, DiscoveredRecord(e, policy)), acc.imported + 1, acc.skipped)
  }

  /** The merge loop over `entries`, starting from the loaded database. */
  function Merge(db: Printers, entries: seq<Entry>, policy: CommunityPolicy): Outcome
    decreases |entries|
  {
    if entries == [] then Outcome(db, 0, 0)
    else MergeStep(Merge(db, entries[..|entries| - 1], policy), entries[|entries| - 1], policy)
  }

  /** The merge loop, updating the database and the two counters in place. */
  method MergeDiscovered(db: Printers, entries: seq<Entry>, policy: CommunityPolicy)
    returns (printers: Printers, imported: nat, skipped: nat)
    ensures Outcome(printers, imported, skipped) == Merge(db, entries, policy)
  {
    printers, imported, skipped := db, 0, 0;
    for i := 0 to |entries|
      invariant Outcome(printers, imported, skipped) == Merge(db, entries[..i], policy)
    {
      assert entries[..i + 1][..i] == entries[..i];
      var e := entries[i];
      if e.ip.None? || e.ip.value == "" || e.name.None? || e.name.value == "" {
        continue;
      }
      var ip := e.ip.value;
      if ip in KeySet(printers) {
        skipped := skipped + 1;
        continue;
      }
      printers := Put(printers, ip, DiscoveredRecord(e, policy));
      imported := imported + 1;
    }
    assert entries[..|entries|] == entries;
  }

  /** The addresses of the usable entries. */
  function UsableIps(entries: seq<Entry>): set<string> {
    set i | 0 <= i < |entries| && Usable(entries[i]) :: entries[i].ip.value
  }

  function CountUsable(entries: seq<Entry>): nat
    decreases |entries|
  {
    if entries == [] then 0
    else CountUsable(entries[..|entries| - 1]) + if Usable(entries[|entries| - 1]) then 1 else 0
  }

  lemma {:induction false} CountUsableBound(entries: seq<Entry>)
    ensures CountUsable(entries) <= |entries|
    decreases |entries|
  {
    if entries != [] {
      CountUsableBound(entries[..|entries| - 1]);
    }
  }

  lemma UsableIpsSnoc(entries: seq<Entry>, e: Entry)
    ensures UsableIps(entries + [e]) == UsableIps(entries) + if Usable(e) then {e.ip.value} else {}
  {
    var all := entries + [e];
    forall k | k in UsableIps(all) ensures k in UsableIps(entries) + if Usable(e) then {e.ip.value} else {} {
      var i :| 0 <= i < |all| && Usable(all[i]) && all[i].ip.value == k;
      if i < |entries| {
        assert all[i] == entries[i];
      }
    }
    forall k | k in UsableIps(entries) ensures k in UsableIps(all) {
      var i :| 0 <= i < |entries| && Usable(entries[i]) && entries[i].ip.value == k;
      assert all[i] == entries[i];
    }
    if Usable(e) {
      assert all[|entries|] == e;
    }
  }

  /** The database grows by exactly the imported count and gains exactly the usable addresses;
      every usable entry is either imported or skipped, so imported + skipped <= |entries|. */
  lemma {:induction false} MergeCounts(db: Printers, entries: seq<Entry>, policy: CommunityPolicy)
    ensures var r := Merge(db, entries, policy);
      |r.db| == |db| + r.imported
      && KeySet(r.db) == KeySet(db) + UsableIps(entries)
      && r.imported + r.skipped == CountUsable(entries)
      && r.imported + r.skipped <= |entries|
    decreases |entries|
  {
    CountUsableBound(entries);
    if entries != [] {
      var n := |entries| - 1;
      MergeCounts(db, entries[..n], policy);
      assert entries == entries[..n] + [entries[n]];
      UsableIpsSnoc(entries[..n], entries[n]);
    }
  }

  /** Records already in the database are never changed. */
  lemma {:induction false} MergeKeepsExisting(db: Printers, entries: seq<Entry>, policy: CommunityPolicy, k: string)
    requires k in KeySet(db)
    ensures Get(Merge(db, entries, policy).db, k) == Get(db, k)
    decreases |entries|
  {
    if entries != [] {
      MergeKeepsExisting(db, entries[..|entries| - 1], policy, k);
    }
  }

  /** Unusable entries change nothing, counters included. */
  lemma MergeIgnoresUnusable(db: Printers, entries: seq<Entry>, e: Entry, policy: CommunityPolicy)
    requires !Usable(e)
    ensures Merge(db, entries + [e], policy) == Merge(db, entries, policy)
  {
    assert (entries + [e])[..|entries|] == entries;
  }

  /** A new address is stored from its first usable entry; later duplicates are skipped. */
  lemma {:induction false} MergeFirstOccurrenceStored(db: Printers, entries: seq<Entry>, policy: CommunityPolicy, i: nat)
    requires i < |entries| && Usable(entries[i])
    requires entries[i].ip.value !in KeySet(db)
    requires forall j | 0 <= j < i :: !(Usable(entries[j]) && entries[j].ip == entries[i].ip)
    ensures Get(Merge(db, entries, policy).db, entries[i].ip.value) == Some(DiscoveredRecord(entries[i], policy))
    decreases |entries|
  {
    var n := |entries| - 1;
    var init := entries[..n];
    var e := entries[n];
    var ip := entries[i].ip.value;
    var before := Merge(db, init, policy);
    assert Merge(db, entries, policy) == MergeStep(before, e, policy);
    if i == n {
      MergeCounts(db, init, policy);
      assert ip !in UsableIps(init) by {
        forall j | 0 <= j < n && Usable(init[j]) ensures init[j].ip.value != ip {
          assert init[j] == entries[j];
        }
      }
      assert ip !in KeySet(before.db);
    } else {
      assert init[i] == entries[i];
      forall j | 0 <= j < i ensures !(Usable(init[j]) && init[j].ip == init[i].ip) {
        assert init[j] == entries[j];
      }
      MergeFirstOccurrenceStored(db, init, policy, i);
      assert Get(before.db, ip).Some?;
    }
  }

  /** The first usable entry for a new address decides its record: named after the entry, with
      status "Unknown", timestamp "Never", "N/A" readings and empty supply and alert maps. */
  lemma MergeFirstOccurrenceWins(db: Printers, entries: seq<Entry>, policy: CommunityPolicy, i: nat)
    requires i < |entries| && Usable(entries[i])
    requires entries[i].ip.value !in KeySet(db)
    requires forall j | 0 <= j < i :: !(Usable(entries[j]) && entries[j].ip == entries[i].ip)
    ensures var q := Get(Merge(db, entries, policy).db, entries[i].ip.value);
      q.Some?
      && q.value.name == entries[i].name && q.value.ip == entries[i].ip
      && q.value.status == Some("Unknown") && q.value.timestamp == Some("Never")
      && q.value.model == Some("N/A") && q.value.serial == Some("N/A") && q.value.totalPages == Some("N/A")
      && q.value.toner == Some([]) && q.value.drums == Some([]) && q.value.other == Some([]) && q.value.errors == Some([])
      && q.value.community == Some(if policy == FromEntry then entries[i].community.GetOr("public") else "public")
  {
    MergeFirstOccurrenceStored(db, entries, policy, i);
  }
}
