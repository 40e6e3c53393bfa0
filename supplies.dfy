/**
 * The utility helpers of snmp_utils.py: supply percentage, supply category
 * and alert severity label.
 */
module Supplies {
  import opened Wrappers
  import opened Text

  /** prtMarkerSuppliesLevel sentinels of the Printer MIB (RFC 3805). */
  const SomeRemaining := -3
  const UnknownLevel := -2

  /**
   * Python's `round` applied to the exact quotient `n / d`: the nearest
   * integer, ties going to the even neighbour.
   */
  function RoundHalfEven(n: int, d: int): (r: int)
    requires d > 0
    ensures -d <= 2 * (n - d * r) <= d
    ensures (2 * (n - d * r) == d || 2 * (n - d * r) == -d) ==> r % 2 == 0
  {
    var q := n / d;
    var m := n % d;
    assert n - d * (q + 1) == m - d;
    if 2 * m < d then q
    else if 2 * m > d then q + 1
    else if q % 2 == 0 then q
    else q + 1
  }

  lemma RoundPercentBounds(level: int, max: int)
    requires 0 <= level <= max && max > 0
    ensures 0 <= RoundHalfEven(100 * level, max) <= 100
  {
    var n := 100 * level;
    var q := n / max;
    assert 0 <= q;
    assert max * q <= max * 100;
    MulCancel(max, q, 100);
    if q == 100 {
      assert n % max == n - max * 100;
      assert n - max * 100 <= 0;
    }
  }

  lemma MulCancel(a: int, x: int, y: int)
    requires a > 0 && a * x <= a * y
    ensures x <= y
  {
    assert a * (y - x) >= 0;
  }

  /** `_calculate_percentage(level, max_val)` */
  function CalculatePercentage(level: string, maxVal: string): (r: string)
    ensures r == "Invalid" <==> ParseInt(level).None? || ParseInt(maxVal).None?
    ensures EndsWith(r, "%") <==>
      ParseInt(level).Some? && ParseInt(maxVal).Some?
      && ParseInt(level).value != UnknownLevel && ParseInt(level).value != SomeRemaining
      && ParseInt(maxVal).value > 0
  {
    match (ParseInt(level), ParseInt(maxVal))
    case (Some(l), Some(m)) =>
      if l == UnknownLevel then "Unknown"
      else if l == SomeRemaining then "OK"
      else if m > 0 then
        var s := IntToString(RoundHalfEven(100 * l, m)) + "%";
        assert s[|s| - 1..] == "%";
        s
      else "N/A"
    case _ => "Invalid"
  }

  /** The two sentinels win over any maximum, provided both texts parse. */
  lemma PercentageSentinels(level: string, maxVal: string)
    requires ParseInt(maxVal).Some?
    ensures ParseInt(level) == Some(-2) ==> CalculatePercentage(level, maxVal) == "Unknown"
    ensures ParseInt(level) == Some(-3) ==> CalculatePercentage(level, maxVal) == "OK"
  {
  }

  /** A measured level of a positive maximum is reported as the rounded percentage. */
  lemma PercentageOfMax(level: string, maxVal: string, l: int, m: int)
    requires ParseInt(level) == Some(l) && ParseInt(maxVal) == Some(m)
    requires l != -2 && l != -3
    ensures m > 0 ==> exists n: int ::
      CalculatePercentage(level, maxVal) == IntToString(n) + "%"
      && -m <= 2 * (100 * l - m * n) <= m
      && (0 <= l <= m ==> 0 <= n <= 100)
    ensures m <= 0 ==> CalculatePercentage(level, maxVal) == "N/A"
  {
    if m > 0 {
      var n := RoundHalfEven(100 * l, m);
      if 0 <= l <= m { RoundPercentBounds(l, m); }
      assert CalculatePercentage(level, maxVal) == IntToString(n) + "%";
    }
  }

  /** The three supply groups `_categorize_supply` chooses between. */
  const TonerCartridges := "Toner Cartridges"
  const DrumUnits := "Drum Units"
  const OtherSupplies := "Other"

  /** `_categorize_supply(name)` */
  function CategorizeSupply(name: string): (r: string)
    ensures r == TonerCartridges || r == DrumUnits || r == OtherSupplies
  {
    var lower := Lower(name);
    if Contains(lower, "toner") then TonerCartridges
    else if Contains(lower, "drum") then DrumUnits
    else OtherSupplies
  }

  /** Matching ignores letter case, and "toner" is looked for before "drum". */
  lemma CategorizeSupplyMatching(name: string, other: string)
    ensures Lower(name) == Lower(other) ==> CategorizeSupply(name) == CategorizeSupply(other)
    ensures CategorizeSupply(name) == TonerCartridges <==> Contains(Lower(name), "toner")
    ensures CategorizeSupply(name) == DrumUnits <==>
      !Contains(Lower(name), "toner") && Contains(Lower(name), "drum")
  {
  }

  /** `_map_severity(code)`: the code's own table, unknown codes returned as given. */
  function MapSeverity(code: string): (r: string)
    ensures r == "Critical" <==> code == "3" || code == "Critical"
    ensures r == "Warning" <==> code == "4" || code == "Warning"
    ensures code == "1" ==> r == "Other"
    ensures code == "2" ==> r == "Unknown"
    ensures code == "5" ==> r == "Info"
    ensures code != "1" && code != "2" && code != "3" && code != "4" && code != "5" ==> r == code
  {
    if code == "1" then "Other"
    else if code == "2" then "Unknown"
    else if code == "3" then "Critical"
    else if code == "4" then "Warning"
    else if code == "5" then "Info"
    else code
  }
}
