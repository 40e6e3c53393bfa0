/**
 * The health classifier and the per-device poll reconciliation of main.py.
 * A stored printer is a JSON object whose keys may be missing, so every field
 * is optional.
 */
module Health {
  import opened Wrappers
  import opened Text
  import opened Dicts
  import opened Supplies
  import opened Snmp
  import opened PrinterStatus

  /** A stored printer record; None is a missing key. */
  datatype Printer = Printer(
    name: Option<string>,
    ip: Option<string>,
    community: Option<string>,
    model: Option<string>,
    serial: Option<string>,
    status: Option<string>,
    timestamp: Option<string>,
    toner: Option<Dict<string, string>>,
    drums: Option<Dict<string, string>>,
    other: Option<Dict<string, string>>,
    errors: Option<Dict<string, string>>,
    totalPages: Option<string>,
    offlineAttempts: Option<int>)

  /** The printer database: address -> record, in insertion order. */
  type Printers = Dict<string, Printer>

  /** Consecutive unreachable polls after which a printer is shown Offline. */
  const OfflineThreshold := 3

  /** The level a supply value stands for: a "%"-suffixed integer, else nothing. */
  function LevelOf(value: string): Option<int> {
    if EndsWith(value, "%") then ParseInt(RstripChar(value, '%')) else None
  }

  /** A supply value that makes `evaluate_status` return: a level below 20. */
  predicate IsLow(value: string) {
    LevelOf(value).Some? && LevelOf(value).value < 20
  }

  /** The index of the first low value, scanning in order. */
  function FirstLowIndex(values: seq<string>): (r: Option<nat>)
    ensures r.None? <==> forall i | 0 <= i < |values| :: !IsLow(values[i])
    ensures r.Some? ==>
      (r.value < |values| && IsLow(values[r.value]) && forall j | 0 <= j < r.value :: !IsLow(values[j]))
    decreases |values|
  {
    if values == [] then None
    else if IsLow(values[0]) then Some(0)
    else match FirstLowIndex(values[1..])
      case None => None
      case Some(i) => Some(i + 1)
  }

  /** The supply values `evaluate_status` scans: toner cartridges, then drum units, in insertion order. */
  function Scanned(p: Printer): seq<string> {
    Values(p.toner.GetOr([])) + Values(p.drums.GetOr([]))
  }

  /** `evaluate_status(printer_info)` */
  function EvaluateStatus(p: Printer): (r: string)
    ensures r == "OK" || r == "Warning" || r == "Error"
  {
    var errors := p.errors.GetOr([]);
    if errors != [] then
      if "Critical" in Values(errors) then "Error" else "Warning"
    else
      var values := Scanned(p);
      match FirstLowIndex(values)
      case None => "OK"
      case Some(i) => if LevelOf(values[i]).value < 10 then "Error" else "Warning"
  }

  /** With alerts present the supplies are ignored: a Critical alert gives Error, any other Warning. */
  lemma EvaluateStatusAlerts(p: Printer)
    requires p.errors.GetOr([]) != []
    ensures EvaluateStatus(p) == "Error" <==> exists k :: Get(p.errors.value, k) == Some("Critical")
    ensures EvaluateStatus(p) != "OK"
    ensures forall q: Printer | q.errors == p.errors :: EvaluateStatus(q) == EvaluateStatus(p)
  {
    var errors := p.errors.value;
    if "Critical" in Values(errors) {
      var i :| 0 <= i < |errors| && Values(errors)[i] == "Critical";
      GetAt(errors, i);
    }
    if exists k :: Get(errors, k) == Some("Critical") {
      var k :| Get(errors, k) == Some("Critical");
      var i :| 0 <= i < |errors| && errors[i] == (k, "Critical");
      assert Values(errors)[i] == "Critical";
    }
  }

  /** OK exactly when there is no alert and no toner or drum value below 20%. */
  lemma EvaluateStatusOk(p: Printer)
    ensures EvaluateStatus(p) == "OK" <==>
      p.errors.GetOr([]) == [] && forall i | 0 <= i < |Scanned(p)| :: !IsLow(Scanned(p)[i])
  {
  }

  /** Without alerts, the first low value in scan order decides: below 10 is Error, else Warning. */
  lemma EvaluateStatusFirstLow(p: Printer, i: nat)
    requires p.errors.GetOr([]) == []
    requires i < |Scanned(p)| && IsLow(Scanned(p)[i])
    requires forall j | 0 <= j < i :: !IsLow(Scanned(p)[j])
    ensures EvaluateStatus(p) == if LevelOf(Scanned(p)[i]).value < 10 then "Error" else "Warning"
  {
    var first := FirstLowIndex(Scanned(p));
    assert first == Some(i);
  }

  /** A level formatted as `CalculatePercentage` formats it reads back as that level. */
  lemma LevelOfPercent(n: int)
    ensures LevelOf(IntToString(n) + "%") == Some(n)
  {
    var s := IntToString(n);
    if n < 0 {
      NatToStringDigits(-n);
      assert s == "-" + NatToString(-n);
    } else {
      NatToStringDigits(n);
    }
    assert |s| > 0 && s[|s| - 1] != '%';
    var t := s + "%";
    assert t[|t| - 1..] == "%";
    assert t[..|t| - 1] == s;
    assert RstripChar(t, '%') == RstripChar(s, '%') == s;
    ParseIntToString(n);
  }

  /** The percentage a device reports is the level `evaluate_status` reads. */
  lemma CalculatedLevelReadBack(level: string, maxVal: string, l: int, m: int)
    requires ParseInt(level) == Some(l) && ParseInt(maxVal) == Some(m)
    requires l != UnknownLevel && l != SomeRemaining && m > 0
    ensures exists n: int ::
      (LevelOf(CalculatePercentage(level, maxVal)) == Some(n) && -m <= 2 * (100 * l - m * n) <= m)
  {
    PercentageOfMax(level, maxVal, l, m);
    var n: int :| CalculatePercentage(level, maxVal) == IntToString(n) + "%" && -m <= 2 * (100 * l - m * n) <= m;
    LevelOfPercent(n);
  }

  /** A printer whose only supply is one toner at `n`%: below 10 Error, below 20 Warning, else OK. */
  lemma SingleTonerThresholds(p: Printer, supply: string, n: int)
    requires p.errors.GetOr([]) == [] && p.drums.GetOr([]) == []
    requires p.toner == Some([(supply, IntToString(n) + "%")])
    ensures EvaluateStatus(p) == if n < 10 then "Error" else if n < 20 then "Warning" else "OK"
  {
    LevelOfPercent(n);
    assert Scanned(p) == [IntToString(n) + "%"];
  }

  /** The boundaries 9, 10, 19 and 20 percent. */
  lemma ThresholdBoundaries(p: Printer, supply: string)
    requires p.errors.GetOr([]) == [] && p.drums.GetOr([]) == []
    ensures EvaluateStatus(p.(toner := Some([(supply, "9%")]))) == "Error"
    ensures EvaluateStatus(p.(toner := Some([(supply, "10%")]))) == "Warning"
    ensures EvaluateStatus(p.(toner := Some([(supply, "19%")]))) == "Warning"
    ensures EvaluateStatus(p.(toner := Some([(supply, "20%")]))) == "OK"
  {
    assert IntToString(9) + "%" == "9%";
    assert IntToString(10) + "%" == "10%";
    assert IntToString(19) + "%" == "19%";
    assert IntToString(20) + "%" == "20%";
    SingleTonerThresholds(p.(toner := Some([(supply, "9%")])), supply, 9);
    SingleTonerThresholds(p.(toner := Some([(supply, "10%")])), supply, 10);
    SingleTonerThresholds(p.(toner := Some([(supply, "19%")])), supply, 19);
    SingleTonerThresholds(p.(toner := Some([(supply, "20%")])), supply, 20);
  }

  /** Order matters: a 15% toner scanned before a 5% drum gives Warning, not Error. */
  lemma TonerScannedBeforeDrums(p: Printer)
    requires p.errors.GetOr([]) == []
    requires p.toner == Some([("Black Toner", "15%")]) && p.drums == Some([("Imaging Drum", "5%")])
    ensures EvaluateStatus(p) == "Warning"
  {
    assert IntToString(15) + "%" == "15%";
    LevelOfPercent(15);
    assert Values(p.toner.value) == ["15%"];
    assert Values(p.drums.value) == ["5%"];
    assert Scanned(p) == ["15%", "5%"];
    assert IsLow(Scanned(p)[0]);
    EvaluateStatusFirstLow(p, 0);
  }

  /** What polling one device yields: an exception while polling, or a snapshot. */
  datatype Probe = Raised | Answered(snap: Snapshot)

  /**
   * The per-device update of `poll_printer` and `poll_all_printers_task`:
   * an unreachable device adds one offline attempt and turns Offline at the
   * threshold; an answering device resets the count and takes the snapshot's
   * fields; an exception marks it Offline. `now` is the formatted clock.
   */
  function Reconcile(p: Printer, probe: Probe, now: string): (r: Printer)
    ensures SameIdentity(p, r) && r.timestamp == Some(now)
    ensures probe.Raised? ==> r.status == Some("Offline")
    ensures probe.Answered? && probe.snap.unreachable ==>
      r.offlineAttempts == Some(p.offlineAttempts.GetOr(0) + 1)
      && (p.offlineAttempts.GetOr(0) + 1 >= OfflineThreshold ==> r.status == Some("Offline"))
    ensures probe.Answered? && !probe.snap.unreachable ==>
      r.offlineAttempts == Some(0) && r.status != Some("Offline")
  {
    match probe
    case Raised => p.(status := Some("Offline"), timestamp := Some(now))
    case Answered(snap) =>
      if snap.unreachable then
        var attempts := p.offlineAttempts.GetOr(0) + 1;
        p.(offlineAttempts := Some(attempts),
           timestamp := Some(now),
           status := if attempts >= OfflineThreshold then Some("Offline") else p.status)
      else
        var updated := p.(
          offlineAttempts := Some(0),
          model := Some(snap.model),
          serial := Some(snap.serial),
          toner := Some(snap.toner),
          drums := Some(snap.drums),
          other := Some(snap.other),
          errors := Some(snap.errors),
          totalPages := Some(snap.totalPages),
          timestamp := Some(now));
        updated.(status := Some(EvaluateStatus(updated)))
  }

  /** Fields that only an answering device changes. */
  predicate SameReadings(p: Printer, q: Printer) {
    q.model == p.model && q.serial == p.serial && q.toner == p.toner && q.drums == p.drums
    && q.other == p.other && q.errors == p.errors && q.totalPages == p.totalPages
  }

  /** Fields no poll changes. */
  predicate SameIdentity(p: Printer, q: Printer) {
    q.name == p.name && q.ip == p.ip && q.community == p.community
  }

  lemma ReconcileUnreachable(p: Printer, snap: Snapshot, now: string)
    requires snap.unreachable
    ensures var q := Reconcile(p, Answered(snap), now);
      q.offlineAttempts == Some(p.offlineAttempts.GetOr(0) + 1)
      && (q.status == Some("Offline") <==> p.offlineAttempts.GetOr(0) + 1 >= OfflineThreshold || p.status == Some("Offline"))
      && (p.offlineAttempts.GetOr(0) + 1 < OfflineThreshold ==> q.status == p.status)
      && q.timestamp == Some(now)
      && SameReadings(p, q) && SameIdentity(p, q)
  {
  }

  lemma ReconcileReachable(p: Printer, snap: Snapshot, now: string)
    requires !snap.unreachable
    ensures var q := Reconcile(p, Answered(snap), now);
      q.offlineAttempts == Some(0)
      && q.model == Some(snap.model) && q.serial == Some(snap.serial)
      && q.toner == Some(snap.toner) && q.drums == Some(snap.drums) && q.other == Some(snap.other)
      && q.errors == Some(snap.errors) && q.totalPages == Some(snap.totalPages)
      && q.timestamp == Some(now)
      && q.status == Some(EvaluateStatus(q)) && q.status != Some("Offline")
      && SameIdentity(p, q)
  {
  }

  lemma ReconcileRaised(p: Printer, now: string)
    ensures var q := Reconcile(p, Raised, now);
      q.status == Some("Offline") && q.timestamp == Some(now)
      && q.offlineAttempts == p.offlineAttempts
      && SameReadings(p, q) && SameIdentity(p, q)
  {
  }

  /** `k` consecutive polls of a device that does not answer. */
  function Unanswered(p: Printer, k: nat, now: string): Printer
    decreases k
  {
    if k == 0 then p else Reconcile(Unanswered(p, k - 1, now), Answered(UnreachableSnapshot), now)
  }

  /** The debounce: after `k` unanswered polls the count grows by `k`; the printer keeps its
      status until the count reaches 3, then shows Offline. */
  lemma {:induction false} DebounceCount(p: Printer, k: nat, now: string)
    ensures Unanswered(p, k, now).offlineAttempts == Some(p.offlineAttempts.GetOr(0) + k) || k == 0
    ensures p.offlineAttempts.GetOr(0) + k < OfflineThreshold ==> Unanswered(p, k, now).status == p.status
    ensures k > 0 && p.offlineAttempts.GetOr(0) + k >= OfflineThreshold ==> Unanswered(p, k, now).status == Some("Offline")
    ensures SameReadings(p, Unanswered(p, k, now)) && SameIdentity(p, Unanswered(p, k, now))
    decreases k
  {
    if k > 0 {
      DebounceCount(p, k - 1, now);
      var before := Unanswered(p, k - 1, now);
      assert before.offlineAttempts.GetOr(0) == p.offlineAttempts.GetOr(0) + k - 1;
    }
  }

  /** A freshly added printer (count 0) survives two silent polls with its status and goes Offline on the third. */
  lemma ThirdSilentPollGoesOffline(p: Printer, now: string)
    requires p.offlineAttempts == Some(0)
    ensures Unanswered(p, 1, now).status == p.status
    ensures Unanswered(p, 2, now).status == p.status
    ensures Unanswered(p, 3, now).status == Some("Offline")
    ensures Unanswered(p, 3, now).offlineAttempts == Some(3)
  {
    DebounceCount(p, 1, now);
    DebounceCount(p, 2, now);
    DebounceCount(p, 3, now);
  }

  /** Without the SNMP library every answer carries the "SNMP Error" alert, so the printer shows Warning. */
  lemma NoSnmpLibraryWarns(p: Printer, now: string)
    ensures Reconcile(p, Answered(NoSnmpSnapshot), now).status == Some("Warning")
  {
    var q := Reconcile(p, Answered(NoSnmpSnapshot), now);
    assert Values(q.errors.value) == ["pysnmp not installed"];
  }

  /** How a device behaves on the network. */
  datatype Endpoint = Crashes | Answers(agent: Agent)

  /** A device that answers nothing. */
  const SilentAgent := Agent("", map[], map[])

  /** The probe `poll_printer` obtains for the device at `ip`; an address not on the network is silent. */
  function ProbeOf(net: map<string, Endpoint>, ip: string, community: string, available: bool): Probe {
    var endpoint := if ip in net then net[ip] else Answers(SilentAgent);
    match endpoint
    case Crashes => Raised
    case Answers(agent) => Answered(Status(agent, community, available))
  }

  lemma UnknownAddressUnreachable(net: map<string, Endpoint>, ip: string, community: string)
    requires ip !in net
    ensures ProbeOf(net, ip, community, true) == Answered(UnreachableSnapshot)
  {
  }
}
