/**
 * `get_printer_status_sync` of snmp_utils.py: from the answers of one device
 * to a status snapshot (model, serial, supply levels by group, active alerts,
 * page counter), with the queries it issues.
 */
module PrinterStatus {
  import opened Wrappers
  import opened Text
  import opened Dicts
  import opened Supplies
  import opened Snmp

  const SysDescrOid := "1.3.6.1.2.1.1.1.0"
  const ModelOid := "1.3.6.1.2.1.25.3.2.1.3.1"
  const SerialOid := "1.3.6.1.2.1.43.5.1.1.17.1"
  /** prtMarkerSuppliesDescription, prtMarkerSuppliesLevel and prtMarkerSuppliesMaxCapacity. */
  const SupplyDescBase := "1.3.6.1.2.1.43.11.1.1.6.1"
  const SupplyLevelPrefix := "1.3.6.1.2.1.43.11.1.1.9.1."
  const SupplyMaxPrefix := "1.3.6.1.2.1.43.11.1.1.8.1."
  /** prtAlertDescription and prtAlertSeverityLevel. */
  const AlertDescBase := "1.3.6.1.2.1.43.18.1.1.8"
  const AlertSevBase := "1.3.6.1.2.1.43.18.1.1.2"
  const PageCountOid := "1.3.6.1.2.1.43.10.2.1.4.1.1"

  datatype Query = GetQuery(oid: string) | WalkQuery(base: string)

  /** The dict `get_printer_status_sync` returns; `unreachable` is the `snmp_unreachable` flag. */
  datatype Snapshot = Snapshot(
    model: string,
    serial: string,
    toner: Dict<string, string>,
    drums: Dict<string, string>,
    other: Dict<string, string>,
    errors: Dict<string, string>,
    totalPages: string,
    unreachable: bool)

  const UnreachableSnapshot := Snapshot("N/A", "N/A", [], [], [], [], "N/A", true)

  /** What is returned when the SNMP library cannot be imported. */
  const NoSnmpSnapshot := Snapshot("SNMP not available", "N/A", [], [], [], [("SNMP Error", "pysnmp not installed")], "N/A", false)

  /** Python truthiness of an optional string. */
  predicate Truthy(v: Option<string>) { v.Some? && v.value != "" }

  /** `value or "N/A"` */
  function OrNA(v: Option<string>): string { if Truthy(v) then v.value else "N/A" }

  /** `toner_levels`, `drum_levels` and `misc_levels`. */
  datatype Levels = Levels(toner: Dict<string, string>, drums: Dict<string, string>, other: Dict<string, string>)

  /** A supply description that is neither empty nor "unknown" once stripped and lower-cased. */
  predicate Listed(name: string) { name != "" && Lower(Strip(name)) != "unknown" }

  function Group(levels: Levels, category: string): Dict<string, string> {
    if category == TonerCartridges then levels.toner
    else if category == DrumUnits then levels.drums
    else levels.other
  }

  function Record(levels: Levels, supply: string, percent: string): Levels {
    var category := CategorizeSupply(supply);
    if category == TonerCartridges then levels.(toner := Put(levels.toner, supply, percent))
    else if category == DrumUnits then levels.(drums := Put(levels.drums, supply, percent))
    else levels.(other := Put(levels.other, supply, percent))
  }

  function LevelOid(descOid: string): string { SupplyLevelPrefix + AfterLastDot(descOid) }
  function MaxOid(descOid: string): string { SupplyMaxPrefix + AfterLastDot(descOid) }

  /** A supply that ends up in one of the three groups: listed, with a non-empty level and maximum. */
  predicate Counted(agent: Agent, community: string, entry: (string, string)) {
    Listed(entry.1)
    && Truthy(SnmpGet(agent, community, LevelOid(entry.0)))
    && Truthy(SnmpGet(agent, community, MaxOid(entry.0)))
  }

  /** The percentage stored for a counted supply: its level over its maximum. */
  function Percent(agent: Agent, community: string, entry: (string, string)): string
    requires Counted(agent, community, entry)
  {
    CalculatePercentage(SnmpGet(agent, community, LevelOid(entry.0)).value, SnmpGet(agent, community, MaxOid(entry.0)).value)
  }

  function SupplyStep(agent: Agent, community: string, levels: Levels, entry: (string, string)): Levels {
    if !Counted(agent, community, entry) then levels
    else Record(levels, Strip(entry.1), Percent(agent, community, entry))
  }

  /** The supply loop over the description walk. */
  function SupplyLevels(agent: Agent, community: string, descs: seq<(string, string)>): Levels
    decreases |descs|
  {
    if descs == [] then Levels([], [], [])
    else SupplyStep(agent, community, SupplyLevels(agent, community, descs[..|descs| - 1]), descs[|descs| - 1])
  }

  function SupplyQueries(descs: seq<(string, string)>): seq<Query>
    decreases |descs|
  {
    if descs == [] then []
    else
      var last := descs[|descs| - 1];
      SupplyQueries(descs[..|descs| - 1])
      + if Listed(last.1) then [GetQuery(LevelOid(last.0)), GetQuery(MaxOid(last.0))] else []
  }

  /** The severity OID paired with an alert description OID. */
  function SeverityOid(descOid: string): string {
    AlertSevBase + "." + ReplaceAll(descOid, AlertDescBase + ".", "")
  }

  function AlertLabel(sevs: Dict<string, string>, descOid: string): string {
    MapSeverity(Get(sevs, SeverityOid(descOid)).GetOr("Unknown"))
  }

  predicate Surfaced(severity: string) { severity == "Critical" || severity == "Warning" }

  /** The alert loop: description -> label, for the alerts whose label is Critical or Warning. */
  function ActiveAlerts(sevs: Dict<string, string>, descs: seq<(string, string)>): Dict<string, string>
    decreases |descs|
  {
    if descs == [] then []
    else
      var errors := ActiveAlerts(sevs, descs[..|descs| - 1]);
      var last := descs[|descs| - 1];
      var severity := AlertLabel(sevs, last.0);
      if Surfaced(severity) then Put(errors, last.1, severity) else errors
  }

  function SupplyDescs(agent: Agent, community: string): Dict<string, string> {
    Walk(SupplyDescBase, Stream(agent, community, SupplyDescBase))
  }

  /** The snapshot `get_printer_status_sync(ip, community)` returns. */
  function Status(agent: Agent, community: string, available: bool): Snapshot {
    if !available then NoSnmpSnapshot
    else if SnmpGet(agent, community, SysDescrOid).None? then UnreachableSnapshot
    else
      var levels := SupplyLevels(agent, community, SupplyDescs(agent, community));
      var alerts := Walk(AlertDescBase, Stream(agent, community, AlertDescBase));
      var sevs := Walk(AlertSevBase, Stream(agent, community, AlertSevBase));
      Snapshot(
        OrNA(SnmpGet(agent, community, ModelOid)),
        OrNA(SnmpGet(agent, community, SerialOid)),
        levels.toner, levels.drums, levels.other,
        ActiveAlerts(sevs, alerts),
        OrNA(SnmpGet(agent, community, PageCountOid)),
        false)
  }

  /** A wrong community string is indistinguishable from a silent device: one GET, then the
      unreachable snapshot. */
  lemma WrongCommunityUnreachable(agent: Agent, community: string)
    requires community != agent.community
    ensures Status(agent, community, true) == UnreachableSnapshot
    ensures Issued(agent, community, true) == [GetQuery(SysDescrOid)]
  {
  }

  /** The GETs and WALKs `get_printer_status_sync` issues, in order. */
  function Issued(agent: Agent, community: string, available: bool): seq<Query> {
    if !available then []
    else if SnmpGet(agent, community, SysDescrOid).None? then [GetQuery(SysDescrOid)]
    else
      [GetQuery(SysDescrOid), GetQuery(ModelOid), GetQuery(SerialOid), WalkQuery(SupplyDescBase)]
      + SupplyQueries(SupplyDescs(agent, community))
      + [WalkQuery(AlertDescBase), WalkQuery(AlertSevBase), GetQuery(PageCountOid)]
  }

  /** The supply loop of `get_printer_status_sync`, over the description walk. */
  method CollectSupplies(agent: Agent, community: string, descs: seq<(string, string)>) returns (levels: Levels, issued: seq<Query>)
    ensures levels == SupplyLevels(agent, community, descs)
    ensures issued == SupplyQueries(descs)
  {
    var toner: Dict<string, string> := [];
    var drums: Dict<string, string> := [];
    var misc: Dict<string, string> := [];
    issued := [];
    for i := 0 to |descs|
      invariant Levels(toner, drums, misc) == SupplyLevels(agent, community, descs[..i])
      invariant issued == SupplyQueries(descs[..i])
    {
      assert descs[..i + 1][..i] == descs[..i];
      var (oid, name) := descs[i];
      if name == "" || Lower(Strip(name)) == "unknown" {
        continue;
      }
      var index := AfterLastDot(oid);
      var level := SnmpGet(agent, community, SupplyLevelPrefix + index);
      var maxVal := SnmpGet(agent, community, SupplyMaxPrefix + index);
      issued := issued + [GetQuery(SupplyLevelPrefix + index), GetQuery(SupplyMaxPrefix + index)];
      if Truthy(level) && Truthy(maxVal) {
        var percent := CalculatePercentage(level.value, maxVal.value);
        var supply := Strip(name);
        var category := CategorizeSupply(supply);
        if category == TonerCartridges {
          toner := Put(toner, supply, percent);
        } else if category == DrumUnits {
          drums := Put(drums, supply, percent);
        } else {
          misc := Put(misc, supply, percent);
        }
      }
    }
    assert descs[..|descs|] == descs;
    levels := Levels(toner, drums, misc);
  }

  /** The alert loop of `get_printer_status_sync`: pairs each description with its severity. */
  method CollectAlerts(sevs: Dict<string, string>, descs: seq<(string, string)>) returns (errors: Dict<string, string>)
    ensures errors == ActiveAlerts(sevs, descs)
  {
    errors := [];
    for i := 0 to |descs|
      invariant errors == ActiveAlerts(sevs, descs[..i])
    {
      assert descs[..i + 1][..i] == descs[..i];
      var (oid, desc) := descs[i];
      var suffix := ReplaceAll(oid, AlertDescBase + ".", "");
      var sevOid := AlertSevBase + "." + suffix;
      var code := Get(sevs, sevOid).GetOr("Unknown");
      var severity := MapSeverity(code);
      if severity == "Critical" || severity == "Warning" {
        errors := Put(errors, desc, severity);
      }
    }
    assert descs[..|descs|] == descs;
  }

  /** `get_printer_status_sync(ip, community)`; `available` is PYSNMP_AVAILABLE. */
  method GetPrinterStatusSync(agent: Agent, community: string, available: bool) returns (snap: Snapshot, issued: seq<Query>)
    ensures snap == Status(agent, community, available)
    ensures issued == Issued(agent, community, available)
    ensures snap.unreachable <==> available && SnmpGet(agent, community, SysDescrOid) == None
    ensures snap.unreachable ==> snap == UnreachableSnapshot && issued == [GetQuery(SysDescrOid)]
  {
    issued := [];
    if !available {
      snap := NoSnmpSnapshot;
      return;
    }
    var sysDescr := SnmpGet(agent, community, SysDescrOid);
    issued := issued + [GetQuery(SysDescrOid)];
    if sysDescr == None {
      snap := UnreachableSnapshot;
      return;
    }
    var model := OrNA(SnmpGet(agent, community, ModelOid));
    var serial := OrNA(SnmpGet(agent, community, SerialOid));
    issued := issued + [GetQuery(ModelOid), GetQuery(SerialOid)];

    var descs := WalkSync(agent, community, SupplyDescBase);
    var levels, supplyQueries := CollectSupplies(agent, community, descs);
    issued := issued + [WalkQuery(SupplyDescBase)] + supplyQueries;

    var alertDescs := WalkSync(agent, community, AlertDescBase);
    var alertSevs := WalkSync(agent, community, AlertSevBase);
    var errors := CollectAlerts(alertSevs, alertDescs);
    issued := issued + [WalkQuery(AlertDescBase), WalkQuery(AlertSevBase)];

    var pages := OrNA(SnmpGet(agent, community, PageCountOid));
    issued := issued + [GetQuery(PageCountOid)];
    snap := Snapshot(model, serial, levels.toner, levels.drums, levels.other, errors, pages, false);
  }

  /** Entry `i` of an alert walk has description `d` and a Critical or Warning label. */
  predicate SurfacedAt(sevs: Dict<string, string>, descs: seq<(string, string)>, i: int, d: string) {
    0 <= i < |descs| && descs[i].1 == d && Surfaced(AlertLabel(sevs, descs[i].0))
  }

  /** ... and no later entry with description `d` is surfaced. */
  predicate LastSurfacedAt(sevs: Dict<string, string>, descs: seq<(string, string)>, i: int, d: string) {
    SurfacedAt(sevs, descs, i, d) && forall j | i < j < |descs| :: !SurfacedAt(sevs, descs, j, d)
  }

  /** One step of the alert loop, seen from a single description. */
  lemma ActiveAlertsStep(sevs: Dict<string, string>, descs: seq<(string, string)>, d: string)
    requires descs != []
    ensures var last := descs[|descs| - 1];
      Get(ActiveAlerts(sevs, descs), d)
      == if last.1 == d && Surfaced(AlertLabel(sevs, last.0)) then Some(AlertLabel(sevs, last.0))
         else Get(ActiveAlerts(sevs, descs[..|descs| - 1]), d)
  {
  }

  /** A description is reported iff some alert with that description is Critical or Warning,
      and every reported label is one of those two. */
  lemma {:induction false} ActiveAlertsReported(sevs: Dict<string, string>, descs: seq<(string, string)>, d: string)
    ensures Get(ActiveAlerts(sevs, descs), d).Some? <==> exists i :: SurfacedAt(sevs, descs, i, d)
    ensures Get(ActiveAlerts(sevs, descs), d).Some? ==> Surfaced(Get(ActiveAlerts(sevs, descs), d).value)
    decreases |descs|
  {
    if descs != [] {
      var n := |descs| - 1;
      var init := descs[..n];
      ActiveAlertsReported(sevs, init, d);
      ActiveAlertsStep(sevs, descs, d);
      if SurfacedAt(sevs, descs, n, d) {
      } else {
        if exists i :: SurfacedAt(sevs, init, i, d) {
          var i :| SurfacedAt(sevs, init, i, d);
          assert init[i] == descs[i];
          assert SurfacedAt(sevs, descs, i, d);
        }
        if exists i :: SurfacedAt(sevs, descs, i, d) {
          var i :| SurfacedAt(sevs, descs, i, d);
          assert init[i] == descs[i];
          assert SurfacedAt(sevs, init, i, d);
        }
      }
    }
  }

  /** When several alerts share a description, the last Critical or Warning one decides its label. */
  lemma {:induction false} ActiveAlertsLastWins(sevs: Dict<string, string>, descs: seq<(string, string)>, i: int, d: string)
    requires LastSurfacedAt(sevs, descs, i, d)
    ensures Get(ActiveAlerts(sevs, descs), d) == Some(AlertLabel(sevs, descs[i].0))
    decreases |descs|
  {
    var n := |descs| - 1;
    var init := descs[..n];
    ActiveAlertsStep(sevs, descs, d);
    if i < n {
      assert !SurfacedAt(sevs, descs, n, d);
      forall j | i < j < n ensures !SurfacedAt(sevs, init, j, d) {
        assert init[j] == descs[j];
        assert !SurfacedAt(sevs, descs, j, d);
      }
      assert init[i] == descs[i];
      ActiveAlertsLastWins(sevs, init, i, d);
    }
  }

  /** An alert whose severity OID is missing from the severity walk maps to "Unknown" and is dropped. */
  lemma AlertWithoutSeverityDropped(sevs: Dict<string, string>, descs: seq<(string, string)>, entry: (string, string))
    requires SeverityOid(entry.0) !in KeySet(sevs)
    ensures ActiveAlerts(sevs, descs + [entry]) == ActiveAlerts(sevs, descs)
  {
    assert (descs + [entry])[..|descs|] == descs;
    assert AlertLabel(sevs, entry.0) == "Unknown";
  }

  /** Every key of a group categorizes to that group. */
  predicate Placed(levels: Levels) {
    (forall k | k in KeySet(levels.toner) :: CategorizeSupply(k) == TonerCartridges)
    && (forall k | k in KeySet(levels.drums) :: CategorizeSupply(k) == DrumUnits)
    && (forall k | k in KeySet(levels.other) :: CategorizeSupply(k) == OtherSupplies)
  }

  lemma RecordPlaced(levels: Levels, supply: string, percent: string)
    requires Placed(levels)
    ensures var r := Record(levels, supply, percent);
      Placed(r)
      && supply in KeySet(Group(r, CategorizeSupply(supply)))
      && KeySet(levels.toner) <= KeySet(r.toner)
      && KeySet(levels.drums) <= KeySet(r.drums)
      && KeySet(levels.other) <= KeySet(r.other)
  {
  }

  /** The group a supply description is filed under. */
  function GroupOf(levels: Levels, name: string): Dict<string, string> {
    Group(levels, CategorizeSupply(Strip(name)))
  }

  /** One step of the supply loop keeps every group's keys and files a counted supply. */
  lemma SupplyStepPlaced(agent: Agent, community: string, levels: Levels, entry: (string, string))
    requires Placed(levels)
    ensures var r := SupplyStep(agent, community, levels, entry);
      Placed(r)
      && (Counted(agent, community, entry) ==> Strip(entry.1) in KeySet(GroupOf(r, entry.1)))
      && KeySet(levels.toner) <= KeySet(r.toner)
      && KeySet(levels.drums) <= KeySet(r.drums)
      && KeySet(levels.other) <= KeySet(r.other)
  {
    if Counted(agent, community, entry) {
      RecordPlaced(levels, Strip(entry.1), Percent(agent, community, entry));
    }
  }

  /** Every supply lands in the group its name categorizes to, and every counted supply is
      present under its stripped name. */
  lemma {:induction false} SupplyPlacement(agent: Agent, community: string, descs: seq<(string, string)>)
    ensures Placed(SupplyLevels(agent, community, descs))
    ensures forall i | 0 <= i < |descs| && Counted(agent, community, descs[i]) ::
      Strip(descs[i].1) in KeySet(GroupOf(SupplyLevels(agent, community, descs), descs[i].1))
    decreases |descs|
  {
    if descs != [] {
      var n := |descs| - 1;
      var init := descs[..n];
      var before := SupplyLevels(agent, community, init);
      var after := SupplyLevels(agent, community, descs);
      SupplyPlacement(agent, community, init);
      SupplyStepPlaced(agent, community, before, descs[n]);
      assert after == SupplyStep(agent, community, before, descs[n]);
      forall i | 0 <= i < |descs| && Counted(agent, community, descs[i])
        ensures Strip(descs[i].1) in KeySet(GroupOf(after, descs[i].1))
      {
        if i < n {
          assert init[i] == descs[i];
          assert Strip(descs[i].1) in KeySet(GroupOf(before, descs[i].1));
        }
      }
    }
  }

  /** The `i`-th description is a counted supply whose stripped name is `name`. */
  predicate CountedAs(agent: Agent, community: string, descs: seq<(string, string)>, i: int, name: string) {
    0 <= i < |descs| && Counted(agent, community, descs[i]) && Strip(descs[i].1) == name
  }

  /** ... and no later description is. */
  predicate LastCountedAs(agent: Agent, community: string, descs: seq<(string, string)>, i: int, name: string) {
    CountedAs(agent, community, descs, i, name)
    && forall j | i < j < |descs| :: !CountedAs(agent, community, descs, j, name)
  }

  /** What one step of the supply loop does to the entry stored under `name`. */
  lemma SupplyStepGet(agent: Agent, community: string, levels: Levels, entry: (string, string), name: string)
    ensures var r := SupplyStep(agent, community, levels, entry);
      Get(Group(r, CategorizeSupply(name)), name)
      == if Counted(agent, community, entry) && Strip(entry.1) == name
         then Some(Percent(agent, community, entry))
         else Get(Group(levels, CategorizeSupply(name)), name)
  {
  }

  /** A stripped name is stored in its group exactly when some counted description strips to
      it, and the stored percentage is that of the last such description. */
  lemma {:induction false} SupplyLevelsReported(agent: Agent, community: string, descs: seq<(string, string)>, name: string)
    ensures var stored := Get(Group(SupplyLevels(agent, community, descs), CategorizeSupply(name)), name);
      (stored.Some? <==> exists i :: CountedAs(agent, community, descs, i, name))
      && forall i | LastCountedAs(agent, community, descs, i, name) :: stored == Some(Percent(agent, community, descs[i]))
    decreases |descs|
  {
    if descs != [] {
      var n := |descs| - 1;
      var init := descs[..n];
      var before := SupplyLevels(agent, community, init);
      var stored := Get(Group(SupplyLevels(agent, community, descs), CategorizeSupply(name)), name);
      var storedBefore := Get(Group(before, CategorizeSupply(name)), name);
      SupplyLevelsReported(agent, community, init, name);
      SupplyStepGet(agent, community, before, descs[n], name);
      if CountedAs(agent, community, descs, n, name) {
        assert stored == Some(Percent(agent, community, descs[n]));
        forall i | LastCountedAs(agent, community, descs, i, name) ensures i == n {
        }
      } else {
        assert stored == storedBefore;
        SameCountedPrefix(agent, community, descs, name);
      }
    }
  }

  /** When the last description does not count as `name`, the earlier ones decide. */
  lemma SameCountedPrefix(agent: Agent, community: string, descs: seq<(string, string)>, name: string)
    requires descs != [] && !CountedAs(agent, community, descs, |descs| - 1, name)
    ensures var init := descs[..|descs| - 1];
      ((exists i :: CountedAs(agent, community, descs, i, name)) <==> (exists i :: CountedAs(agent, community, init, i, name)))
      && forall i | LastCountedAs(agent, community, descs, i, name) :: LastCountedAs(agent, community, init, i, name)
  {
    var n := |descs| - 1;
    var init := descs[..n];
    if exists i :: CountedAs(agent, community, descs, i, name) {
      var i :| CountedAs(agent, community, descs, i, name);
      assert init[i] == descs[i];
      assert CountedAs(agent, community, init, i, name);
    }
    if exists i :: CountedAs(agent, community, init, i, name) {
      var i :| CountedAs(agent, community, init, i, name);
      assert init[i] == descs[i];
      assert CountedAs(agent, community, descs, i, name);
    }
    forall i | LastCountedAs(agent, community, descs, i, name)
      ensures LastCountedAs(agent, community, init, i, name)
    {
      assert init[i] == descs[i];
      forall j | i < j < |init| ensures !CountedAs(agent, community, init, j, name) {
        assert init[j] == descs[j];
        assert !CountedAs(agent, community, descs, j, name);
      }
    }
  }

  /** Every key of the three groups comes from a counted description. */
  lemma SupplyKeysCounted(agent: Agent, community: string, descs: seq<(string, string)>)
    ensures var levels := SupplyLevels(agent, community, descs);
      forall k | k in KeySet(levels.toner) + KeySet(levels.drums) + KeySet(levels.other) ::
        exists i :: CountedAs(agent, community, descs, i, k)
  {
    var levels := SupplyLevels(agent, community, descs);
    SupplyPlacement(agent, community, descs);
    forall k | k in KeySet(levels.toner) + KeySet(levels.drums) + KeySet(levels.other)
      ensures exists i :: CountedAs(agent, community, descs, i, k)
    {
      SupplyLevelsReported(agent, community, descs, k);
      assert k in KeySet(Group(levels, CategorizeSupply(k)));
    }
  }

  lemma SupplyGroupsDisjoint(agent: Agent, community: string, descs: seq<(string, string)>)
    ensures var levels := SupplyLevels(agent, community, descs);
      KeySet(levels.toner) !! KeySet(levels.drums)
      && KeySet(levels.toner) !! KeySet(levels.other)
      && KeySet(levels.drums) !! KeySet(levels.other)
  {
    SupplyPlacement(agent, community, descs);
  }

  /** An unlisted supply (empty or "unknown") issues no query and changes no group. */
  lemma UnlistedSupplySkipped(agent: Agent, community: string, descs: seq<(string, string)>, entry: (string, string))
    requires !Listed(entry.1)
    ensures SupplyLevels(agent, community, descs + [entry]) == SupplyLevels(agent, community, descs)
    ensures SupplyQueries(descs + [entry]) == SupplyQueries(descs)
  {
    assert (descs + [entry])[..|descs|] == descs;
  }
}
