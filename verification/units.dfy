/** Display units for result tables (ecowcdb/util/units.py). */
module Units {
  import opened Wrappers
  import opened Sorting
  import opened Descriptors
  import opened Options
  import Search

  /** `__unit_str`: the label of a unit.  The microsecond label is the
      two-character sequence U+00C2 U+00B5 followed by `s`, which is what the
      source file's bytes spell (a UTF-8 `µ` read back as Latin-1).  The
      `case _` arm is unreachable: the match covers all five units. */
  function UnitStr(u: DisplayUnit): string {
    match u
    case MicroSecond => "\U{00C2}\U{00B5}s"
    case MilliSecond => "ms"
    case Second => "s"
    case Minute => "min"
    case Hour => "h"
  }

  /** The unit a label names, if any: the inverse of `UnitStr`. */
  function UnitOf(name: string): (r: Option<DisplayUnit>)
    ensures r.Some? ==> UnitStr(r.value) == name
  {
    if name == "\U{00C2}\U{00B5}s" then Some(MicroSecond)
    else if name == "ms" then Some(MilliSecond)
    else if name == "s" then Some(Second)
    else if name == "min" then Some(Minute)
    else if name == "h" then Some(Hour)
    else None
  }

  /** Every label is read back as its unit, so no two units share a label. */
  lemma UnitStrRoundTrip(u: DisplayUnit)
    ensures UnitOf(UnitStr(u)) == Some(u)
  {
  }

  lemma UnitStrInjective(a: DisplayUnit, b: DisplayUnit)
    ensures UnitStr(a) == UnitStr(b) ==> a == b
  {
    UnitStrRoundTrip(a);
    UnitStrRoundTrip(b);
  }

  /** `__unit_factor`: the number of display units in one second. */
  function UnitFactor(u: DisplayUnit): (r: real)
    ensures r > 0.0
  {
    match u
    case MicroSecond => 1000000.0
    case MilliSecond => 1000.0
    case Second => 1.0
    case Minute => 1.0 / 60.0
    case Hour => 1.0 / 3600.0
  }

  /** The length of one display unit in seconds. */
  function SecondsPer(u: DisplayUnit): real {
    match u
    case MicroSecond => 0.000001
    case MilliSecond => 0.001
    case Second => 1.0
    case Minute => 60.0
    case Hour => 3600.0
  }

  /** The factor converts seconds into the unit: it is the inverse of the
      unit's length in seconds. */
  lemma UnitFactorInverse(u: DisplayUnit)
    ensures UnitFactor(u) * SecondsPer(u) == 1.0
  {
  }

  /** The rank of a unit from the shortest to the longest. */
  function Rank(u: DisplayUnit): nat {
    match u
    case MicroSecond => 0
    case MilliSecond => 1
    case Second => 2
    case Minute => 3
    case Hour => 4
  }

  /** Longer units have smaller factors. */
  lemma UnitFactorOrder(a: DisplayUnit, b: DisplayUnit)
    ensures Rank(a) < Rank(b) <==> UnitFactor(a) > UnitFactor(b)
  {
  }

  type Row = (string, string, string, string)

  /** `generate_header(delay_unit, runtime_unit)`. */
  function GenerateHeader(delayUnit: DisplayUnit, runtimeUnit: DisplayUnit): (r: seq<Row>)
    ensures |r| == 1
  {
    [("# of Edges", "Edges Kept", "Delay (" + UnitStr(delayUnit) + ")", "Elapsed Time (" + UnitStr(runtimeUnit) + ")")]
  }

  /** The label inside `prefix + "(" + label + ")"`, if `title` has that shape. */
  function Parenthesised(title: string, prefix: string): Option<string> {
    if |title| >= |prefix| + 1 && title[..|prefix|] == prefix && title[|title| - 1] == ')'
    then Some(title[|prefix|..|title| - 1])
    else None
  }

  /** The header names the two units it was generated for. */
  lemma HeaderNamesUnits(delayUnit: DisplayUnit, runtimeUnit: DisplayUnit)
    ensures var h := GenerateHeader(delayUnit, runtimeUnit)[0];
      && h.0 == "# of Edges" && h.1 == "Edges Kept"
      && Parenthesised(h.2, "Delay (").Some? && UnitOf(Parenthesised(h.2, "Delay (").value) == Some(delayUnit)
      && Parenthesised(h.3, "Elapsed Time (").Some? && UnitOf(Parenthesised(h.3, "Elapsed Time (").value) == Some(runtimeUnit)
  {
    var h := GenerateHeader(delayUnit, runtimeUnit)[0];
    var d, t := UnitStr(delayUnit), UnitStr(runtimeUnit);
    assert h.2[..7] == "Delay (" && h.2[7..|h.2| - 1] == d;
    assert h.3[..14] == "Elapsed Time (" && h.3[14..|h.3| - 1] == t;
    UnitStrRoundTrip(delayUnit);
    UnitStrRoundTrip(runtimeUnit);
  }

  /** A row of `convert_result_units` before `__str__`: the edge count, the
      edges, and the delay and runtime in display units. */
  datatype Converted = Converted(edgeCount: nat, edges: Forest, delay: ExtReal, runtime: real)

  /** `x * factor` on floats, `inf` staying `inf` for a positive factor. */
  function Scaled(x: ExtReal, factor: real): ExtReal {
    match x
    case Fin(v) => Fin(v * factor)
    case Inf => Inf
  }

  /** `convert_result_units(results, delay_unit, runtime_unit)`, one row per
      result in order; the rendering of numbers and edge lists as strings is
      not modelled. */
  function ConvertResultUnits(results: seq<Search.Entry>, delayUnit: DisplayUnit, runtimeUnit: DisplayUnit): (r: seq<Converted>)
    ensures |r| == |results|
    ensures forall i :: 0 <= i < |r| ==> r[i].edgeCount == |r[i].edges| && r[i].edges == results[i].forest
  {
    seq(|results|, i requires 0 <= i < |results| =>
      Converted(|results[i].forest|, results[i].forest,
                Scaled(results[i].delay, UnitFactor(delayUnit)),
                results[i].elapsed * UnitFactor(runtimeUnit)))
  }

  /** Converting back into seconds: the inverse of `ConvertResultUnits`. */
  function ToSeconds(rows: seq<Converted>, delayUnit: DisplayUnit, runtimeUnit: DisplayUnit): (r: seq<Search.Entry>)
    ensures |r| == |rows|
  {
    seq(|rows|, i requires 0 <= i < |rows| =>
      Search.Entry(rows[i].edges, Scaled(rows[i].delay, SecondsPer(delayUnit)), rows[i].runtime * SecondsPer(runtimeUnit)))
  }

  lemma ScaledInverse(x: ExtReal, u: DisplayUnit)
    ensures Scaled(Scaled(x, UnitFactor(u)), SecondsPer(u)) == x
  {
    if x.Fin? {
      UnitFactorInverse(u);
      assert x.value * UnitFactor(u) * SecondsPer(u) == x.value * (UnitFactor(u) * SecondsPer(u));
    }
  }

  /** The table loses nothing: converting its rows back into seconds gives the
      results it was made from. */
  lemma ConvertRoundTrip(results: seq<Search.Entry>, delayUnit: DisplayUnit, runtimeUnit: DisplayUnit)
    ensures ToSeconds(ConvertResultUnits(results, delayUnit, runtimeUnit), delayUnit, runtimeUnit) == results
  {
    var rows := ConvertResultUnits(results, delayUnit, runtimeUnit);
    var back := ToSeconds(rows, delayUnit, runtimeUnit);
    forall i | 0 <= i < |results|
      ensures back[i] == results[i]
    {
      ScaledInverse(results[i].delay, delayUnit);
      var e := results[i].elapsed;
      UnitFactorInverse(runtimeUnit);
      assert e * UnitFactor(runtimeUnit) * SecondsPer(runtimeUnit) == e * (UnitFactor(runtimeUnit) * SecondsPer(runtimeUnit));
    }
  }
}
