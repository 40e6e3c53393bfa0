/**
 * printer_discovery.py: pulling an IPv4 address out of a printer port name,
 * the print-server name, the shaping of PowerShell results into discovered
 * entries, and the choice of discovery method.
 */
module PrinterDiscovery {
  import opened Wrappers
  import opened Text

  // ---------------------------------------------------------------------
  // The pattern \b(\d{1,3}\.\d{1,3}\.\d{1,3}\.\d{1,3})\b
  // ---------------------------------------------------------------------

  /** `\b` at position `i`: a word character on exactly one side. */
  predicate AtBoundary(s: string, i: int)
    requires 0 <= i <= |s|
  {
    (i > 0 && IsWordChar(s[i - 1])) != (i < |s| && IsWordChar(s[i]))
  }

  /** `s[i..j]` is matched by `\d{1,3}`. */
  predicate Octet(s: string, i: int, j: int) {
    0 <= i < j <= |s| && j - i <= 3 && forall k | i <= k < j :: IsDigit(s[k])
  }

  /** `s[p..e]` is matched by the whole pattern, with dots at `d1`, `d2`, `d3`. */
  predicate QuadAt(s: string, p: int, d1: int, d2: int, d3: int, e: int) {
    Octet(s, p, d1) && d1 < |s| && s[d1] == '.'
    && Octet(s, d1 + 1, d2) && d2 < |s| && s[d2] == '.'
    && Octet(s, d2 + 1, d3) && d3 < |s| && s[d3] == '.'
    && Octet(s, d3 + 1, e)
    && AtBoundary(s, p) && AtBoundary(s, e)
  }

  ghost predicate IsMatch(s: string, p: int, e: int) {
    exists d1, d2, d3 :: QuadAt(s, p, d1, d2, d3, e)
  }

  /** The length of the run of digits starting at `q`. */
  function DigitRun(s: string, q: nat): (r: nat)
    requires q <= |s|
    ensures q + r <= |s|
    ensures forall k | q <= k < q + r :: IsDigit(s[k])
    ensures q + r == |s| || !IsDigit(s[q + r])
    decreases |s| - q
  {
    if q < |s| && IsDigit(s[q]) then 1 + DigitRun(s, q + 1) else 0
  }

  /** One dotted group: its digits must be followed by a dot; returns the position after the dot. */
  function Group(s: string, q: nat): Option<nat>
    requires q <= |s|
  {
    var n := DigitRun(s, q);
    if 1 <= n <= 3 && q + n < |s| && s[q + n] == '.' then Some(q + n + 1) else None
  }

  /** Where a match starting at `p` ends, if there is one. Each group's digit run is forced, so the
      backtracking of the regular expression never finds a second candidate. */
  function MatchAt(s: string, p: nat): Option<nat>
    requires p <= |s|
  {
    if !AtBoundary(s, p) then None
    else match Group(s, p)
      case None => None
      case Some(q1) => match Group(s, q1)
        case None => None
        case Some(q2) => match Group(s, q2)
          case None => None
          case Some(q3) =>
            var n := DigitRun(s, q3);
            if 1 <= n <= 3 && AtBoundary(s, q3 + n) then Some(q3 + n) else None
  }

  /** A digit run followed by a dot is exactly the run `Group` measures. */
  lemma OctetBeforeDot(s: string, i: int, j: int)
    requires Octet(s, i, j) && j < |s| && s[j] == '.'
    ensures Group(s, i) == Some(j + 1)
  {
  }

  /** A final digit run ending at a boundary is the whole run. */
  lemma OctetAtBoundary(s: string, i: int, e: int)
    requires Octet(s, i, e) && AtBoundary(s, e)
    ensures DigitRun(s, i) == e - i
  {
  }

  /** `MatchAt` finds exactly the matches of the pattern that start at `p`. */
  lemma MatchAtSound(s: string, p: nat)
    requires p <= |s| && MatchAt(s, p).Some?
    ensures IsMatch(s, p, MatchAt(s, p).value)
  {
    var q1 := Group(s, p).value;
    var q2 := Group(s, q1).value;
    var q3 := Group(s, q2).value;
    assert QuadAt(s, p, q1 - 1, q2 - 1, q3 - 1, MatchAt(s, p).value);
  }

  lemma MatchAtFromGroups(s: string, p: nat, q1: nat, q2: nat, q3: nat, e: nat)
    requires p <= |s| && q1 <= |s| && q2 <= |s| && q3 <= |s| && e <= |s|
    requires AtBoundary(s, p)
    requires Group(s, p) == Some(q1) && Group(s, q1) == Some(q2) && Group(s, q2) == Some(q3)
    requires DigitRun(s, q3) == e - q3 && 1 <= e - q3 <= 3 && AtBoundary(s, e)
    ensures MatchAt(s, p) == Some(e)
  {
  }

  lemma MatchAtComplete(s: string, p: nat, e: int)
    requires p <= |s| && IsMatch(s, p, e)
    ensures MatchAt(s, p) == Some(e)
  {
    var d1, d2, d3 :| QuadAt(s, p, d1, d2, d3, e);
    OctetBeforeDot(s, p, d1);
    OctetBeforeDot(s, d1 + 1, d2);
    OctetBeforeDot(s, d2 + 1, d3);
    OctetAtBoundary(s, d3 + 1, e);
    MatchAtFromGroups(s, p, d1 + 1, d2 + 1, d3 + 1, e);
  }

  /** `re.search`: the leftmost start from `p` on at which the pattern matches, with its end. */
  function Search(s: string, p: nat): (r: Option<(nat, nat)>)
    requires p <= |s|
    ensures r.Some? ==> p <= r.value.0 <= |s| && MatchAt(s, r.value.0) == Some(r.value.1)
    ensures forall q | p <= q <= |s| && (r.None? || q < r.value.0) :: MatchAt(s, q).None?
    decreases |s| - p
  {
    match MatchAt(s, p)
    case Some(e) => Some((p, e))
    case None => if p == |s| then None else Search(s, p + 1)
  }

  /** `s.split(".")` */
  function SplitDots(s: string): (r: seq<string>)
    ensures |r| >= 1
    decreases |s|
  {
    if s == [] then [[]]
    else
      var init := SplitDots(s[..|s| - 1]);
      var c := s[|s| - 1];
      if c == '.' then init + [[]] else init[..|init| - 1] + [init[|init| - 1] + [c]]
  }

  lemma {:induction false} SplitDotsNoDot(s: string)
    requires forall i | 0 <= i < |s| :: s[i] != '.'
    ensures SplitDots(s) == [s]
    decreases |s|
  {
    if s != [] {
      SplitDotsNoDot(s[..|s| - 1]);
      assert s[..|s| - 1] + [s[|s| - 1]] == s;
    }
  }

  /** Splitting `a + "." + b`, with no dot in `b`, splits `a` and appends `b`. */
  lemma {:induction false} SplitDotsSnoc(a: string, b: string)
    requires forall i | 0 <= i < |b| :: b[i] != '.'
    ensures SplitDots(a + "." + b) == SplitDots(a) + [b]
    decreases |b|
  {
    var s := a + "." + b;
    if b == [] {
      assert s[..|s| - 1] == a;
    } else {
      var b' := b[..|b| - 1];
      SplitDotsSnoc(a, b');
      assert s[..|s| - 1] == a + "." + b';
      assert b' + [b[|b| - 1]] == b;
    }
  }

  /** `".".join(parts)` */
  function JoinDots(parts: seq<string>): string
    requires |parts| >= 1
    decreases |parts|
  {
    if |parts| == 1 then parts[0] else JoinDots(parts[..|parts| - 1]) + "." + parts[|parts| - 1]
  }

  /** Splitting on dots loses nothing: joining the pieces gives the text back. */
  lemma {:induction false} JoinSplitDots(s: string)
    ensures JoinDots(SplitDots(s)) == s
    decreases |s|
  {
    if s != [] {
      var t := s[..|s| - 1];
      var c := s[|s| - 1];
      var init := SplitDots(t);
      JoinSplitDots(t);
      assert t + [c] == s;
      var k := |init| - 1;
      if c == '.' {
        var r := init + [[]];
        assert r[..|r| - 1] == init;
      } else {
        var r := init[..k] + [init[k] + [c]];
        if k > 0 {
          assert r[..|r| - 1] == init[..k];
          assert init[..k][..k - 1] == init[..k - 1];
          assert JoinDots(init) == JoinDots(init[..k]) + "." + init[k];
          assert JoinDots(r) == JoinDots(init[..k]) + "." + (init[k] + [c]);
        }
      }
    }
  }

  lemma JoinFour(o: seq<string>)
    requires |o| == 4
    ensures JoinDots(o) == o[0] + "." + o[1] + "." + o[2] + "." + o[3]
  {
    var o3, o2, o1 := o[..3], o[..2], o[..1];
    assert o3[..2] == o2 && o2[..1] == o1;
    assert JoinDots(o1) == o[0];
    assert JoinDots(o2) == o[0] + "." + o[1];
    assert JoinDots(o3) == o[0] + "." + o[1] + "." + o[2];
  }

  /** What `ipaddress.ip_address` accepts among the pattern's matches: four octets of at most
      three digits each, every one at most 255. */
  predicate ValidIPv4(ip: string) {
    var octets := SplitDots(ip);
    |octets| == 4
    && forall i | 0 <= i < 4 :: IsDigits(octets[i]) && |octets[i]| <= 3 && DigitsValue(octets[i]) <= 255
  }

  /** A valid address is its four octets joined by dots: 7 to 15 characters. */
  lemma ValidIPv4Joined(ip: string)
    requires ValidIPv4(ip)
    ensures var o := SplitDots(ip);
      |o| == 4 && ip == o[0] + "." + o[1] + "." + o[2] + "." + o[3] && 7 <= |ip| <= 15
  {
    JoinSplitDots(ip);
    JoinFour(SplitDots(ip));
  }

  /** `extract_ip_from_port(port_name)` */
  function ExtractIp(portName: string): (r: Option<string>)
    ensures r.Some? ==> ValidIPv4(r.value)
  {
    match Search(portName, 0)
    case None => None
    case Some((p, e)) =>
      var ip := portName[p..e];
      if ValidIPv4(ip) then Some(ip) else None
  }

  /** No match of the pattern anywhere gives None. */
  lemma ExtractIpNoMatch(portName: string)
    requires forall p, e | 0 <= p <= |portName| :: !IsMatch(portName, p, e)
    ensures ExtractIp(portName) == None
  {
    if Search(portName, 0).Some? {
      var (p, e) := Search(portName, 0).value;
      MatchAtSound(portName, p);
    }
  }

  /** A result is the leftmost match of the pattern, a substring of the port name, and valid;
      a leftmost match that is not a valid address gives None: later matches are not tried. */
  lemma ExtractIpLeftmost(portName: string)
    ensures ExtractIp(portName).Some? ==>
      exists p, e :: 0 <= p <= e <= |portName| && IsMatch(portName, p, e) && portName[p..e] == ExtractIp(portName).value
        && forall q, f | 0 <= q < p :: !IsMatch(portName, q, f)
    ensures forall p, e | 0 <= p <= |portName| && IsMatch(portName, p, e)
        && (forall q, f | 0 <= q < p :: !IsMatch(portName, q, f)) ::
      ExtractIp(portName) == if ValidIPv4(portName[p..e]) then Some(portName[p..e]) else None
  {
    var r := Search(portName, 0);
    forall q, f | 0 <= q <= |portName| && IsMatch(portName, q, f) ensures r.Some? && r.value.0 <= q {
      MatchAtComplete(portName, q, f);
    }
    if r.Some? {
      var (p, e) := r.value;
      MatchAtSound(portName, p);
      assert IsMatch(portName, p, e);
      forall p', e' | 0 <= p' <= |portName| && IsMatch(portName, p', e')
        && (forall q, f | 0 <= q < p' :: !IsMatch(portName, q, f))
        ensures p' == p && e' == e
      {
        MatchAtComplete(portName, p', e');
      }
    }
  }

  /** A quad glued to a letter, a digit or an underscore on its left is not matched there. */
  lemma GluedQuadNotMatched(s: string, p: nat, e: int)
    requires 0 < p < |s| && IsWordChar(s[p - 1]) && IsDigit(s[p])
    ensures !IsMatch(s, p, e)
  {
  }

  /** The port name "IP_192.168.1.100" yields no address: "_" is a word character, so the
      quad has no boundary on its left. */
  lemma UnderscorePrefixedPort()
    ensures ExtractIp("IP_192.168.1.100") == None
  {
    var s := "IP_192.168.1.100";
    forall p | 0 <= p <= |s| ensures MatchAt(s, p) == None {
      if 3 <= p <= 5 {
        assert !AtBoundary(s, p);
      } else if 7 <= p {
        assert Group(s, p) == None || Group(s, Group(s, p).value) == None
          || Group(s, Group(s, Group(s, p).value).value) == None;
      }
    }
    assert Search(s, 0) == None;
  }

  predicate NoDot(s: string) { forall i | 0 <= i < |s| :: s[i] != '.' }

  /** Four dot-free pieces joined by dots split back into those pieces. */
  lemma SplitDotsFour(a: string, b: string, c: string, d: string)
    requires NoDot(a) && NoDot(b) && NoDot(c) && NoDot(d)
    ensures SplitDots(a + "." + b + "." + c + "." + d) == [a, b, c, d]
  {
    SplitDotsNoDot(a);
    SplitDotsSnoc(a, b);
    SplitDotsSnoc(a + "." + b, c);
    SplitDotsSnoc(a + "." + b + "." + c, d);
  }

  lemma DigitsValueShort(a: char, b: char, c: char)
    ensures DigitsValue([a]) == DigitValue(a)
    ensures DigitsValue([a, b]) == 10 * DigitValue(a) + DigitValue(b)
    ensures DigitsValue([a, b, c]) == 100 * DigitValue(a) + 10 * DigitValue(b) + DigitValue(c)
  {
    assert [a][..0] == [];
    assert [a, b][..1] == [a];
    assert [a, b, c][..2] == [a, b];
  }

  /** Four octets of at most three digits, each at most 255, make a valid address. */
  lemma ValidIPv4Four(a: string, b: string, c: string, d: string)
    requires IsDigits(a) && IsDigits(b) && IsDigits(c) && IsDigits(d)
    requires |a| <= 3 && |b| <= 3 && |c| <= 3 && |d| <= 3
    requires DigitsValue(a) <= 255 && DigitsValue(b) <= 255 && DigitsValue(c) <= 255 && DigitsValue(d) <= 255
    ensures ValidIPv4(a + "." + b + "." + c + "." + d)
  {
    SplitDotsFour(a, b, c, d);
    var o := SplitDots(a + "." + b + "." + c + "." + d);
    assert o == [a, b, c, d];
    assert o[0] == a && o[1] == b && o[2] == c && o[3] == d;
    forall i | 0 <= i < 4 ensures IsDigits(o[i]) && |o[i]| <= 3 && DigitsValue(o[i]) <= 255 {
      if i == 0 {} else if i == 1 {} else if i == 2 {} else {}
    }
  }

  /** A first octet above 255 makes the address invalid. */
  lemma InvalidFirstOctet(a: string, b: string, c: string, d: string)
    requires NoDot(a) && NoDot(b) && NoDot(c) && NoDot(d)
    requires DigitsValue(a) > 255
    ensures !ValidIPv4(a + "." + b + "." + c + "." + d)
  {
    SplitDotsFour(a, b, c, d);
    var o := SplitDots(a + "." + b + "." + c + "." + d);
    assert o[0] == a;
  }

  /** A bare address is returned whole. */
  lemma BareAddress(s: string)
    requires s == "192.168.1.100"
    ensures ExtractIp(s) == Some(s)
  {
    OctetBeforeDot(s, 0, 3);
    OctetBeforeDot(s, 4, 7);
    OctetBeforeDot(s, 8, 9);
    OctetAtBoundary(s, 10, 13);
    MatchAtFromGroups(s, 0, 4, 8, 10, 13);
    assert Search(s, 0) == Some((0, 13));
    var a, b, c, d := s[0..3], s[4..7], s[8..9], s[10..13];
    assert s == a + "." + b + "." + c + "." + d;
    DigitsValueShort('1', '9', '2');
    DigitsValueShort('1', '6', '8');
    DigitsValueShort('1', '0', '0');
    assert a == ['1', '9', '2'] && b == ['1', '6', '8'] && c == ['1'] && d == ['1', '0', '0'];
    ValidIPv4Four(a, b, c, d);
    assert s[0..13] == s;
  }

  lemma LeadingInvalidQuad(ip: string)
    requires ip == "999.1.1.1"
    ensures !ValidIPv4(ip)
  {
    var a, b, c, d := ip[0..3], ip[4..5], ip[6..7], ip[8..9];
    assert ip == a + "." + b + "." + c + "." + d;
    DigitsValueShort('9', '9', '9');
    assert a == ['9', '9', '9'];
    assert NoDot(a) && NoDot(b) && NoDot(c) && NoDot(d);
    InvalidFirstOctet(a, b, c, d);
  }

  /** Only the leftmost match counts: in "999.1.1.1 10.0.0.1" it is not an address, and the
      valid address after it is not tried. */
  lemma FirstMatchOnly(s: string)
    requires s == "999.1.1.1 10.0.0.1"
    ensures ExtractIp(s) == None
  {
    OctetBeforeDot(s, 0, 3);
    OctetBeforeDot(s, 4, 5);
    OctetBeforeDot(s, 6, 7);
    OctetAtBoundary(s, 8, 9);
    MatchAtFromGroups(s, 0, 4, 6, 8, 9);
    assert Search(s, 0) == Some((0, 9));
    LeadingInvalidQuad(s[0..9]);
  }

  /** The port name with every underscore read as a separator. */
  function SeparateUnderscores(s: string): (r: string)
    ensures |r| == |s|
    ensures forall i | 0 <= i < |s| :: r[i] == (if s[i] == '_' then ' ' else s[i])
  {
    seq(|s|, i requires 0 <= i < |s| => if s[i] == '_' then ' ' else s[i])
  }

  /** The extraction as evidently intended: an underscore does not glue the address to the
      text before it, so the standard port name "IP_<address>" gives the address. */
  function ExtractIpIntended(portName: string): (r: Option<string>)
    ensures r.Some? ==> ValidIPv4(r.value)
  {
    ExtractIp(SeparateUnderscores(portName))
  }

  /** Without underscores the corrected extraction is the written one. */
  lemma ExtractIpIntendedAgrees(portName: string)
    requires forall i | 0 <= i < |portName| :: portName[i] != '_'
    ensures ExtractIpIntended(portName) == ExtractIp(portName)
  {
    assert SeparateUnderscores(portName) == portName;
  }

  /** The characters of a match are digits and dots. */
  lemma QuadChars(s: string, d1: int, d2: int, d3: int)
    requires QuadAt(s, 0, d1, d2, d3, |s|)
    ensures forall k | 0 <= k < |s| :: IsDigit(s[k]) || s[k] == '.'
  {
    forall k | 0 <= k < |s| ensures IsDigit(s[k]) || s[k] == '.' {
      if k < d1 {
      } else if k == d1 {
      } else if k < d2 {
      } else if k == d2 {
      } else if k < d3 {
      } else if k == d3 {
      } else {
        assert Octet(s, d3 + 1, |s|);
      }
    }
  }

  /** Underscores read as separators: "IP_" before an underscore-free text becomes "IP ". */
  lemma SeparatedPrefix(ip: string)
    requires forall k | 0 <= k < |ip| :: ip[k] != '_'
    ensures SeparateUnderscores("IP_" + ip) == "IP " + ip
  {
    var m := SeparateUnderscores("IP_" + ip);
    forall k | 0 <= k < |m| ensures m[k] == ("IP " + ip)[k] {
      if k >= 3 {
        assert ("IP_" + ip)[k] == ip[k - 3];
      }
    }
  }

  /** A whole-text match keeps matching after three characters ending in a non-word one. */
  lemma ShiftedQuad(ip: string, m: string, d1: int, d2: int, d3: int)
    requires QuadAt(ip, 0, d1, d2, d3, |ip|)
    requires |m| == |ip| + 3 && m[3..] == ip && !IsWordChar(m[2])
    ensures QuadAt(m, 3, d1 + 3, d2 + 3, d3 + 3, |m|)
  {
    assert forall k | 3 <= k < |m| :: m[k] == ip[k - 3];
    assert Octet(m, 3, d1 + 3);
    assert Octet(m, d1 + 4, d2 + 3);
    assert Octet(m, d2 + 4, d3 + 3);
    assert Octet(m, d3 + 4, |m|);
  }

  lemma ShiftedMatch(ip: string, m: string)
    requires MatchAt(ip, 0) == Some(|ip|)
    requires |m| == |ip| + 3 && m[3..] == ip && !IsWordChar(m[2])
    ensures MatchAt(m, 3) == Some(|m|)
  {
    MatchAtSound(ip, 0);
    var d1, d2, d3 :| QuadAt(ip, 0, d1, d2, d3, |ip|);
    ShiftedQuad(ip, m, d1, d2, d3);
    MatchAtComplete(m, 3, |m|);
  }

  /** "IP " cannot start a match, so a match at 3 is the leftmost one. */
  lemma SearchAfterPrefix(m: string)
    requires |m| >= 3 && m[0] == 'I' && m[1] == 'P' && m[2] == ' ' && MatchAt(m, 3) == Some(|m|)
    ensures Search(m, 0) == Some((3, |m|))
  {
    assert MatchAt(m, 2) == None by { assert DigitRun(m, 2) == 0; }
    assert MatchAt(m, 1) == None by { assert !AtBoundary(m, 1); }
    assert MatchAt(m, 0) == None by { assert DigitRun(m, 0) == 0; }
  }

  /** A port name that is itself the extracted address is one whole match. */
  lemma WholeMatch(ip: string)
    requires ExtractIp(ip) == Some(ip)
    ensures MatchAt(ip, 0) == Some(|ip|)
  {
    var r := Search(ip, 0);
    assert r.Some?;
    var (p, e) := r.value;
    assert ip[p..e] == ip;
  }

  /** Extraction once the leftmost match is known. */
  lemma ExtractFound(m: string, p: nat, e: nat)
    requires p <= e <= |m| && Search(m, 0) == Some((p, e)) && ValidIPv4(m[p..e])
    ensures ExtractIp(m) == Some(m[p..e])
  {
  }

  /** "IP " before a whole-match address: the written code extracts the address. */
  lemma SpacePrefixedExtract(ip: string, m: string)
    requires MatchAt(ip, 0) == Some(|ip|) && ValidIPv4(ip)
    requires |m| == |ip| + 3 && m[3..] == ip && m[0] == 'I' && m[1] == 'P' && m[2] == ' '
    ensures ExtractIp(m) == Some(ip)
  {
    ShiftedMatch(ip, m);
    SearchAfterPrefix(m);
    assert m[3..|m|] == ip;
    ExtractFound(m, 3, |m|);
  }

  lemma AddressHasNoUnderscore(ip: string)
    requires MatchAt(ip, 0) == Some(|ip|)
    ensures forall k | 0 <= k < |ip| :: ip[k] != '_'
  {
    MatchAtSound(ip, 0);
    var d1, d2, d3 :| QuadAt(ip, 0, d1, d2, d3, |ip|);
    QuadChars(ip, d1, d2, d3);
  }

  /** An address the written code extracts from a bare port name is extracted by the corrected
      code from "IP_" followed by that address. */
  lemma ExtractIpIntendedPrefixed(ip: string)
    requires ExtractIp(ip) == Some(ip)
    ensures ExtractIpIntended("IP_" + ip) == Some(ip)
  {
    WholeMatch(ip);
    AddressHasNoUnderscore(ip);
    SeparatedPrefix(ip);
    var m := "IP " + ip;
    assert m[3..] == ip && m[0] == 'I' && m[1] == 'P' && m[2] == ' ';
    SpacePrefixedExtract(ip, m);
  }

  // ---------------------------------------------------------------------
  // The print server
  // ---------------------------------------------------------------------

  /** Two backslashes, the UNC prefix of a server name. */
  const UncPrefix := "\\\\"

  /** The server name as passed to PowerShell: with the UNC prefix added when it is missing. */
  function NormalizeServerName(server: string): (r: string)
    ensures StartsWith(r, UncPrefix)
    ensures r == server || r == UncPrefix + server
  {
    if StartsWith(server, UncPrefix) then server else UncPrefix + server
  }

  lemma NormalizeServerNameIdempotent(server: string)
    ensures StartsWith(NormalizeServerName(server), UncPrefix)
    ensures NormalizeServerName(NormalizeServerName(server)) == NormalizeServerName(server)
    ensures StartsWith(server, UncPrefix) ==> NormalizeServerName(server) == server
    ensures !StartsWith(server, UncPrefix) ==> NormalizeServerName(server)[|UncPrefix|..] == server
  {
    var r := NormalizeServerName(server);
    assert r[..|UncPrefix|] == UncPrefix;
  }

  /** A JSON object of PowerShell output; only string fields are read. */
  type JsonObject = map<string, string>

  /** `obj.get(key, "")` */
  function Field(obj: JsonObject, key: string): string {
    if key in obj then obj[key] else ""
  }

  /** A discovered printer: `{name, ip, port_name}`. */
  datatype Discovered = Discovered(name: string, ip: string, portName: string)

  /** The three PowerShell queries, tried in this order: Get-Printer restricted to connection
      printers, Get-Printer, and Get-PrinterPort. */
  datatype PsMethod = ConnectionPrinters | AllPrinters | PrinterPorts

  const Methods := [ConnectionPrinters, AllPrinters, PrinterPorts]

  datatype PsCommand = PsCommand(query: PsMethod, server: string)

  /** What a query gives: a failure (non-zero exit, empty output, invalid JSON, time-out,
      exception) or the parsed objects, a single object counting as a list of one. */
  datatype PsResult = PsFailed | Parsed(items: seq<JsonObject>)

  /** The answers of PowerShell on this machine. */
  type Shell = map<PsCommand, PsResult>

  function Run(shell: Shell, m: PsMethod, server: string): PsResult {
    var command := PsCommand(m, server);
    if command in shell then shell[command] else PsFailed
  }

  /** A port becomes an entry when it has a host address; a nameless port is named after it. */
  function PortEntry(port: JsonObject): (r: seq<Discovered>)
    ensures |r| <= 1
    ensures r != [] <==> Field(port, "PrinterHostAddress") != ""
    ensures r != [] ==> r[0].ip == Field(port, "PrinterHostAddress") && r[0].portName == Field(port, "Name") && r[0].name != ""
  {
    var ip := Field(port, "PrinterHostAddress");
    var name := Field(port, "Name");
    if ip != "" then [Discovered(if name != "" then name else "Printer_" + ReplaceAll(ip, ".", "_"), ip, name)]
    else []
  }

  /** A printer becomes an entry when an address can be read from its port name. */
  function PrinterEntry(printer: JsonObject): (r: seq<Discovered>)
    ensures |r| <= 1
    ensures r != [] <==> ExtractIp(Field(printer, "PortName")).Some?
    ensures r != [] ==>
      r[0].name == Field(printer, "Name") && r[0].portName == Field(printer, "PortName")
      && Some(r[0].ip) == ExtractIp(Field(printer, "PortName")) && ValidIPv4(r[0].ip)
  {
    var name := Field(printer, "Name");
    var portName := Field(printer, "PortName");
    match ExtractIp(portName)
    case Some(ip) => [Discovered(name, ip, portName)]
    case None => []
  }

  function EntryOf(m: PsMethod, item: JsonObject): seq<Discovered> {
    if m == PrinterPorts then PortEntry(item) else PrinterEntry(item)
  }

  /** The entries one query's objects give, in order. */
  function Shape(m: PsMethod, items: seq<JsonObject>): seq<Discovered>
    decreases |items|
  {
    if items == [] then []
    else Shape(m, items[..|items| - 1]) + EntryOf(m, items[|items| - 1])
  }

  /** The first query in `ms` whose objects give at least one entry decides; none gives []. */
  function FirstFound(shell: Shell, server: string, ms: seq<PsMethod>): seq<Discovered>
    decreases |ms|
  {
    if ms == [] then []
    else match Run(shell, ms[0], server)
      case PsFailed => FirstFound(shell, server, ms[1..])
      case Parsed(items) =>
        var found := Shape(ms[0], items);
        if found != [] then found else FirstFound(shell, server, ms[1..])
  }

  function FromPrintServer(shell: Shell, server: string): seq<Discovered> {
    FirstFound(shell, NormalizeServerName(server), Methods)
  }

  /** The entries of one query, appended one by one. */
  method ShapeItems(m: PsMethod, items: seq<JsonObject>) returns (printers: seq<Discovered>)
    ensures printers == Shape(m, items)
  {
    printers := [];
    for j := 0 to |items|
      invariant printers == Shape(m, items[..j])
    {
      assert items[..j + 1][..j] == items[..j];
      var item := items[j];
      if m == PrinterPorts {
        var ip := Field(item, "PrinterHostAddress");
        var name := Field(item, "Name");
        if ip != "" {
          printers := printers + [Discovered(if name != "" then name else "Printer_" + ReplaceAll(ip, ".", "_"), ip, name)];
        }
      } else {
        var name := Field(item, "Name");
        var portName := Field(item, "PortName");
        var ip := ExtractIp(portName);
        if ip.Some? {
          printers := printers + [Discovered(name, ip.value, portName)];
        }
      }
    }
    assert items[..|items|] == items;
  }

  /** `discover_from_windows_print_server(server_name)` */
  method DiscoverFromWindowsPrintServer(shell: Shell, server: string) returns (printers: seq<Discovered>)
    ensures printers == FromPrintServer(shell, server)
  {
    var serverName := NormalizeServerName(server);
    printers := [];
    for idx := 0 to |Methods|
      invariant printers == []
      invariant FirstFound(shell, serverName, Methods[idx..]) == FromPrintServer(shell, server)
    {
      assert Methods[idx..][1..] == Methods[idx + 1..];
      var result := Run(shell, Methods[idx], serverName);
      if result.PsFailed? {
        continue;
      }
      printers := ShapeItems(Methods[idx], result.items);
      if printers != [] {
        return;
      }
    }
  }

  /** Every entry has an address; port entries always have a name; printer entries carry a
      valid address read from their own port name; no query gives more entries than objects. */
  lemma {:induction false} ShapedEntries(m: PsMethod, items: seq<JsonObject>)
    ensures |Shape(m, items)| <= |items|
    ensures forall i | 0 <= i < |Shape(m, items)| ::
      var e := Shape(m, items)[i];
      e.ip != ""
      && (m == PrinterPorts ==> e.name != "")
      && (m != PrinterPorts ==> ExtractIp(e.portName) == Some(e.ip) && ValidIPv4(e.ip))
    decreases |items|
  {
    if items != [] {
      var n := |items| - 1;
      ShapedEntries(m, items[..n]);
      var before := Shape(m, items[..n]);
      var added := EntryOf(m, items[n]);
      assert Shape(m, items) == before + added;
      forall i | 0 <= i < |Shape(m, items)|
        ensures var e := Shape(m, items)[i];
          e.ip != ""
          && (m == PrinterPorts ==> e.name != "")
          && (m != PrinterPorts ==> ExtractIp(e.portName) == Some(e.ip) && ValidIPv4(e.ip))
      {
        if i < |before| {
          assert Shape(m, items)[i] == before[i];
        } else {
          assert Shape(m, items)[i] == added[i - |before|];
        }
      }
    }
  }

  /** A port without a host address is dropped. */
  lemma EmptyHostDropped(items: seq<JsonObject>, port: JsonObject)
    requires Field(port, "PrinterHostAddress") == ""
    ensures Shape(PrinterPorts, items + [port]) == Shape(PrinterPorts, items)
  {
    assert (items + [port])[..|items|] == items;
  }

  /** A nameless port with a host address is named "Printer_" plus the address with "_" for ".". */
  lemma NamelessPortFallback(items: seq<JsonObject>, port: JsonObject)
    requires Field(port, "PrinterHostAddress") != "" && Field(port, "Name") == ""
    ensures var ip := Field(port, "PrinterHostAddress");
      Shape(PrinterPorts, items + [port]) == Shape(PrinterPorts, items) + [Discovered("Printer_" + ReplaceAll(ip, ".", "_"), ip, "")]
  {
    assert (items + [port])[..|items|] == items;
  }

  /** A printer whose port name holds no valid address is dropped. */
  lemma PortWithoutAddressDropped(m: PsMethod, items: seq<JsonObject>, printer: JsonObject)
    requires m != PrinterPorts && ExtractIp(Field(printer, "PortName")) == None
    ensures Shape(m, items + [printer]) == Shape(m, items)
  {
    assert (items + [printer])[..|items|] == items;
  }

  /** The queries are tried in order and the first one giving entries wins; the result is empty
      only when every query failed or gave nothing. */
  lemma {:induction false} FirstFoundOrder(shell: Shell, server: string, ms: seq<PsMethod>)
    ensures FirstFound(shell, server, ms) == [] <==>
      forall i | 0 <= i < |ms| :: Run(shell, ms[i], server).PsFailed? || Shape(ms[i], Run(shell, ms[i], server).items) == []
    ensures FirstFound(shell, server, ms) != [] ==>
      exists i | 0 <= i < |ms| :: Run(shell, ms[i], server).Parsed?
        && FirstFound(shell, server, ms) == Shape(ms[i], Run(shell, ms[i], server).items)
        && forall j | 0 <= j < i :: Run(shell, ms[j], server).PsFailed? || Shape(ms[j], Run(shell, ms[j], server).items) == []
    decreases |ms|
  {
    if ms != [] {
      FirstFoundOrder(shell, server, ms[1..]);
      var r := FirstFound(shell, server, ms);
      var head := Run(shell, ms[0], server);
      if head.Parsed? && Shape(ms[0], head.items) != [] {
        assert r == Shape(ms[0], head.items);
      } else {
        assert r == FirstFound(shell, server, ms[1..]);
        forall i | 1 <= i < |ms| ensures ms[i] == ms[1..][i - 1] { }
        if r != [] {
          var k :| 0 <= k < |ms[1..]| && Run(shell, ms[1..][k], server).Parsed?
            && r == Shape(ms[1..][k], Run(shell, ms[1..][k], server).items)
            && forall j | 0 <= j < k :: Run(shell, ms[1..][j], server).PsFailed? || Shape(ms[1..][j], Run(shell, ms[1..][j], server).items) == [];
          assert ms[k + 1] == ms[1..][k];
          forall j | 0 <= j < k + 1
            ensures Run(shell, ms[j], server).PsFailed? || Shape(ms[j], Run(shell, ms[j], server).items) == []
          {
            if j > 0 { assert ms[j] == ms[1..][j - 1]; }
          }
        }
      }
    }
  }

  // ---------------------------------------------------------------------
  // The dispatch of discover_printers
  // ---------------------------------------------------------------------

  /** The discovery a call resolves to. */
  datatype DiscoveryCall = PrintServer(serverName: string) | Wmi(computer: Option<string>) | NetworkScan(subnet: string)

  /** A keyword argument that is present and not empty. */
  predicate Given(v: Option<string>) { v.Some? && v.value != "" }

  /** `discover_printers(method, server_name=..., subnet=...)`: the discovery to run, or the
      message of the ValueError it raises. */
  function DiscoverPrinters(methodName: string, serverName: Option<string>, subnet: Option<string>): (r: Result<DiscoveryCall, string>)
    ensures r.Err? <==>
      (methodName != "print_server" && methodName != "wmi" && methodName != "network_scan")
      || (methodName == "print_server" && !Given(serverName))
      || (methodName == "network_scan" && !Given(subnet))
    ensures r.Ok? && methodName == "print_server" ==> r.value == PrintServer(serverName.value)
    ensures r.Ok? && methodName == "wmi" ==> r.value == Wmi(serverName)
    ensures r.Ok? && methodName == "network_scan" ==> r.value == NetworkScan(subnet.value)
    ensures r.Err? && methodName == "print_server" ==> r.error == "server_name required for print_server method"
    ensures r.Err? && methodName == "network_scan" ==> r.error == "subnet required for network_scan method"
    ensures methodName != "print_server" && methodName != "wmi" && methodName != "network_scan" ==>
      r == Err("Unknown method: " + methodName)
  {
    if methodName == "print_server" then
      if !Given(serverName) then Err("server_name required for print_server method")
      else Ok(PrintServer(serverName.value))
    else if methodName == "wmi" then Ok(Wmi(serverName))
    else if methodName == "network_scan" then
      if !Given(subnet) then Err("subnet required for network_scan method")
      else Ok(NetworkScan(subnet.value))
    else Err("Unknown method: " + methodName)
  }
}
