/**
 * The SNMP exchanges of snmp_utils.py, with the device as an oracle: a GET
 * reads a table of answers, a WALK consumes the stream of GetNext responses
 * the agent would send (section 4.2.2 of RFC 3416).
 */
module Snmp {
  import opened Wrappers
  import opened Text
  import opened Dicts

  /** One response of the GetNext sequence: a failure (error indication, error status, exception) or var-binds. */
  datatype WalkStep = Failed | Binds(binds: seq<(string, string)>)

  /** What a device answers: to which community, which OIDs for GET, which response streams for WALK. */
  datatype Agent = Agent(community: string, gets: map<string, string>, walks: map<string, seq<WalkStep>>)

  /** `snmp_get_sync`: the value, or None when the OID is absent or the device does not answer. */
  function SnmpGet(agent: Agent, community: string, oid: string): (r: Option<string>)
    ensures r.Some? <==> community == agent.community && oid in agent.gets
    ensures r.Some? ==> r.value == agent.gets[oid]
  {
    if community == agent.community && oid in agent.gets then Some(agent.gets[oid]) else None
  }

  /** The responses a walk from `base` receives; a wrong community times out. */
  function Stream(agent: Agent, community: string, base: string): seq<WalkStep> {
    if community != agent.community then [Failed]
    else if base in agent.walks then agent.walks[base]
    else []
  }

  /** The inner loop over one response's var-binds; `true` when a foreign OID ended the walk. */
  function TakeBinds(base: string, binds: seq<(string, string)>, acc: Dict<string, string>): (Dict<string, string>, bool)
    decreases |binds|
  {
    if binds == [] then (acc, false)
    else if !StartsWith(binds[0].0, base) then (acc, true)
    else TakeBinds(base, binds[1..], Put(acc, binds[0].0, binds[0].1))
  }

  function WalkFrom(base: string, steps: seq<WalkStep>, acc: Dict<string, string>): Dict<string, string>
    decreases |steps|
  {
    if steps == [] then acc
    else match steps[0]
      case Failed => acc
      case Binds(bs) =>
        var (acc', stopped) := TakeBinds(base, bs, acc);
        if stopped then acc' else WalkFrom(base, steps[1..], acc')
  }

  /** The result of `snmp_walk_sync` on a response stream. */
  function Walk(base: string, steps: seq<WalkStep>): Dict<string, string> {
    WalkFrom(base, steps, [])
  }

  /** `snmp_walk_sync(ip, oid_base, community)` */
  method WalkSync(agent: Agent, community: string, base: string) returns (results: Dict<string, string>)
    ensures results == Walk(base, Stream(agent, community, base))
  {
    var steps := Stream(agent, community, base);
    results := [];
    var i := 0;
    while i < |steps|
      invariant 0 <= i <= |steps|
      invariant WalkFrom(base, steps[i..], results) == Walk(base, steps)
    {
      assert steps[i..][1..] == steps[i + 1..];
      match steps[i]
      case Failed =>
        return;
      case Binds(bs) =>
        ghost var before := results;
        var j := 0;
        while j < |bs|
          invariant 0 <= j <= |bs|
          invariant TakeBinds(base, bs[j..], results) == TakeBinds(base, bs, before)
        {
          assert bs[j..][1..] == bs[j + 1..];
          if !StartsWith(bs[j].0, base) {
            return;
          }
          results := Put(results, bs[j].0, bs[j].1);
          j := j + 1;
        }
        i := i + 1;
    }
  }

  /** The var-binds received before the first failed response. */
  function Received(steps: seq<WalkStep>): seq<(string, string)> {
    if steps == [] then []
    else match steps[0]
      case Failed => []
      case Binds(bs) => bs + Received(steps[1..])
  }

  /** The longest prefix of `ps` whose OIDs string-start with `base`. */
  function LeadingUnder(base: string, ps: seq<(string, string)>): (r: seq<(string, string)>)
    ensures |r| <= |ps| && r == ps[..|r|]
    ensures forall i | 0 <= i < |r| :: StartsWith(r[i].0, base)
    ensures |r| < |ps| ==> !StartsWith(ps[|r|].0, base)
  {
    if ps == [] || !StartsWith(ps[0].0, base) then []
    else [ps[0]] + LeadingUnder(base, ps[1..])
  }

  /** The entries assigned into a dict one after the other. */
  function PutAll(acc: Dict<string, string>, ps: seq<(string, string)>): (r: Dict<string, string>)
    ensures KeySet(r) == KeySet(acc) + KeySet(ps)
    decreases |ps|
  {
    if ps == [] then acc
    else
      assert ps == [ps[0]] + ps[1..];
      KeySetCons(ps[0], ps[1..]);
      PutAll(Put(acc, ps[0].0, ps[0].1), ps[1..])
  }

  lemma {:induction false} LeadingUnderAppend(base: string, bs: seq<(string, string)>, rest: seq<(string, string)>)
    ensures LeadingUnder(base, bs + rest) ==
      if LeadingUnder(base, bs) == bs then bs + LeadingUnder(base, rest) else LeadingUnder(base, bs)
    decreases |bs|
  {
    if bs == [] {
      assert bs + rest == rest;
    } else {
      assert (bs + rest)[0] == bs[0];
      assert (bs + rest)[1..] == bs[1..] + rest;
      LeadingUnderAppend(base, bs[1..], rest);
      if StartsWith(bs[0].0, base) {
        var l := LeadingUnder(base, bs[1..]);
        assert LeadingUnder(base, bs) == [bs[0]] + l;
        assert bs == [bs[0]] + bs[1..];
        if l == bs[1..] {
          assert LeadingUnder(base, bs) == bs;
          assert LeadingUnder(base, bs + rest) == [bs[0]] + (bs[1..] + LeadingUnder(base, rest));
          assert [bs[0]] + (bs[1..] + LeadingUnder(base, rest)) == bs + LeadingUnder(base, rest);
        } else {
          assert |l| < |bs| - 1;
          assert LeadingUnder(base, bs) != bs;
        }
      }
    }
  }

  lemma {:induction false} TakeBindsIsPrefix(base: string, bs: seq<(string, string)>, acc: Dict<string, string>)
    ensures TakeBinds(base, bs, acc).0 == PutAll(acc, LeadingUnder(base, bs))
    ensures TakeBinds(base, bs, acc).1 <==> LeadingUnder(base, bs) != bs
    decreases |bs|
  {
    if bs != [] && StartsWith(bs[0].0, base) {
      TakeBindsIsPrefix(base, bs[1..], Put(acc, bs[0].0, bs[0].1));
      var l := LeadingUnder(base, bs[1..]);
      assert ([bs[0]] + l)[1..] == l;
      assert [bs[0]] + bs[1..] == bs;
      if [bs[0]] + l == bs {
        assert l == bs[1..];
      }
    }
  }

  lemma {:induction false} WalkFromIsPrefix(base: string, steps: seq<WalkStep>, acc: Dict<string, string>)
    ensures WalkFrom(base, steps, acc) == PutAll(acc, LeadingUnder(base, Received(steps)))
    decreases |steps|
  {
    if steps != [] && steps[0].Binds? {
      var bs := steps[0].binds;
      TakeBindsIsPrefix(base, bs, acc);
      LeadingUnderAppend(base, bs, Received(steps[1..]));
      if LeadingUnder(base, bs) == bs {
        WalkFromIsPrefix(base, steps[1..], TakeBinds(base, bs, acc).0);
        PutAllAppend(acc, bs, LeadingUnder(base, Received(steps[1..])));
      }
    }
  }

  lemma {:induction false} PutAllAppend(acc: Dict<string, string>, ps: seq<(string, string)>, qs: seq<(string, string)>)
    ensures PutAll(acc, ps + qs) == PutAll(PutAll(acc, ps), qs)
    decreases |ps|
  {
    if ps == [] {
      assert ps + qs == qs;
    } else {
      var x := ps[0];
      var acc' := Put(acc, x.0, x.1);
      assert (ps + qs)[0] == x;
      assert (ps + qs)[1..] == ps[1..] + qs;
      assert PutAll(acc, ps + qs) == PutAll(acc', ps[1..] + qs);
      PutAllAppend(acc', ps[1..], qs);
    }
  }

  /**
   * A walk keeps, in order, the var-binds received before the first failure,
   * up to (not including) the first OID that does not string-start with the base.
   */
  lemma WalkIsLeadingPrefix(base: string, steps: seq<WalkStep>)
    ensures Walk(base, steps) == PutAll([], LeadingUnder(base, Received(steps)))
    ensures forall k | k in KeySet(Walk(base, steps)) :: StartsWith(k, base)
  {
    WalkFromIsPrefix(base, steps, []);
    var l := LeadingUnder(base, Received(steps));
    forall k | k in KeySet(Walk(base, steps)) ensures StartsWith(k, base) {
      var i :| 0 <= i < |l| && l[i].0 == k;
    }
  }

  /** A foreign OID ends the walk: nothing received after it is kept. */
  lemma WalkStopsAtForeignOid(base: string, under: seq<(string, string)>, foreign: (string, string), later: seq<WalkStep>)
    requires forall i | 0 <= i < |under| :: StartsWith(under[i].0, base)
    requires !StartsWith(foreign.0, base)
    ensures Walk(base, [Binds(under + [foreign])] + later) == Walk(base, [Binds(under)])
  {
    var s1 := [Binds(under + [foreign])] + later;
    var s2 := [Binds(under)];
    WalkIsLeadingPrefix(base, s1);
    WalkIsLeadingPrefix(base, s2);
    assert Received(s1) == (under + [foreign]) + Received(later);
    assert Received(s2) == under + [];
    LeadingUnderAppend(base, under + [foreign], Received(later));
    LeadingUnderAppend(base, under, [foreign]);
    LeadingUnderAppend(base, under, []);
    AllUnder(base, under);
  }

  lemma {:induction false} AllUnder(base: string, ps: seq<(string, string)>)
    requires forall i | 0 <= i < |ps| :: StartsWith(ps[i].0, base)
    ensures LeadingUnder(base, ps) == ps
    decreases |ps|
  {
    if ps != [] {
      AllUnder(base, ps[1..]);
    }
  }

  /** An in-prefix entry then an out-of-prefix entry: only the first is returned. */
  lemma WalkExample()
    ensures Walk("1.3.6.1.2.1.43.11.1.1.6.1", [Binds([("1.3.6.1.2.1.43.11.1.1.6.1.1", "Black Toner")]),
                                               Binds([("1.3.6.1.2.1.43.11.1.1.7.1.1", "7")])])
            == [("1.3.6.1.2.1.43.11.1.1.6.1.1", "Black Toner")]
  {
    var base := "1.3.6.1.2.1.43.11.1.1.6.1";
    var under := ("1.3.6.1.2.1.43.11.1.1.6.1.1", "Black Toner");
    var foreign := ("1.3.6.1.2.1.43.11.1.1.7.1.1", "7");
    var steps := [Binds([under]), Binds([foreign])];
    WalkIsLeadingPrefix(base, steps);
    assert steps[1..] == [Binds([foreign])];
    assert Received(steps[1..]) == [foreign] + Received([]);
    assert Received(steps) == [under] + [foreign];
    assert StartsWith(under.0, base);
    assert foreign.0[22] != base[22];
    assert LeadingUnder(base, [under] + [foreign]) == [under];
  }

  /** The check is textual: a base ending in `.8` also accepts the column `.80`. */
  lemma WalkTextualPrefix()
    ensures Walk("1.3.6.1.2.1.43.18.1.1.8", [Binds([("1.3.6.1.2.1.43.18.1.1.80.1", "x")])])
            == [("1.3.6.1.2.1.43.18.1.1.80.1", "x")]
  {
    var base := "1.3.6.1.2.1.43.18.1.1.8";
    var entry := ("1.3.6.1.2.1.43.18.1.1.80.1", "x");
    assert StartsWith(entry.0, base);
    assert TakeBinds(base, [entry], []) == TakeBinds(base, [], [entry]);
  }
}
