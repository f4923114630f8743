/**
 * What `show_optimum` prints: one row per dihedral type in sorted order,
 * holding that type's segment of the optimum, either as it is or as
 * magnitudes next to the phases that carry the signs.
 */
module OptimumReport {
  import opened Outcomes
  import opened Partition
  import opened Phase

  /** One printed row: the type, its force constants, and the phases when they are printed. */
  datatype ReportRow = ReportRow(name: string, ks: seq<real>, phases: Option<seq<real>>)

  /** `[abs(k) for k in ks]`, the printed magnitudes. */
  function Magnitudes(ks: seq<real>): (r: seq<real>)
    ensures |r| == |ks|
    ensures forall i :: 0 <= i < |ks| ==> r[i] >= 0.0 && (r[i] == ks[i] || r[i] == -ks[i])
  {
    seq(|ks|, i requires 0 <= i < |ks| => Abs(ks[i]))
  }

  /** The row of `name`, with or without phases. */
  function Row(kDict: map<string, seq<real>>, name: string, withPhase: bool): ReportRow
    requires name in kDict
  {
    if withPhase then ReportRow(name, Magnitudes(kDict[name]), Some(Phases(kDict[name])))
    else ReportRow(name, kDict[name], None)
  }

  /** The rows of the listed names, in order. */
  function Rows(kDict: map<string, seq<real>>, names: seq<string>, withPhase: bool): (rows: seq<ReportRow>)
    requires forall n :: n in names ==> n in kDict
    ensures |rows| == |names|
    ensures forall i :: 0 <= i < |names| ==> rows[i].name == names[i] && rows[i].phases.Some? == withPhase
  {
    seq(|names|, i requires 0 <= i < |names| => Row(kDict, names[i], withPhase))
  }

  lemma RowsStep(kDict: map<string, seq<real>>, names: seq<string>, i: nat, withPhase: bool)
    requires forall n :: n in names ==> n in kDict
    requires i < |names|
    ensures Rows(kDict, names[..i + 1], withPhase) == Rows(kDict, names[..i], withPhase) + [Row(kDict, names[i], withPhase)]
  {
  }

  /** Everything `show_optimum` prints for the parameter vector `x`. */
  function Report(x: seq<real>, counts: map<string, nat>, names: seq<string>, withPhase: bool): seq<ReportRow>
    requires forall n :: n in names ==> n in counts
  {
    SegmentsHasNames(x, counts, names);
    Rows(Segments(x, counts, names), names, withPhase)
  }

  /** The printed force constants of all rows, one after the other. */
  function Flatten(rows: seq<ReportRow>): seq<real>
  {
    if |rows| == 0 then [] else Flatten(rows[..|rows| - 1]) + rows[|rows| - 1].ks
  }

  /** Without phases the rows print each type's constants in sorted order. */
  lemma {:induction false} FlattenRows(kDict: map<string, seq<real>>, names: seq<string>)
    requires forall n :: n in names ==> n in kDict
    ensures Flatten(Rows(kDict, names, false)) == Concat(kDict, names)
  {
    if |names| > 0 {
      var earlier := names[..|names| - 1];
      assert Rows(kDict, names, false)[..|names| - 1] == Rows(kDict, earlier, false);
      FlattenRows(kDict, earlier);
    }
  }

  /**
   * Without phases, and for distinct names and a vector of exactly the
   * total count, the report prints the whole vector, in order.
   */
  lemma ReportRoundTrip(x: seq<real>, counts: map<string, nat>, names: seq<string>)
    requires forall n :: n in names ==> n in counts
    requires forall a, b :: 0 <= a < b < |names| ==> names[a] != names[b]
    requires |x| == Offset(counts, names)
    ensures Flatten(Report(x, counts, names, false)) == x
  {
    SeparateKRoundTrip(x, counts, names);
    FlattenRows(Segments(x, counts, names), names);
  }

  /** The constant a printed magnitude and phase stand for: negative exactly at 180 degrees. */
  function Signed(magnitude: real, phase: real): real
  {
    if phase == 180.0 then -magnitude else magnitude
  }

  /**
   * With phases, each row's magnitudes and phases have the segment's
   * length and together give back its signed constants.
   */
  lemma ReportKeepsSigns(x: seq<real>, counts: map<string, nat>, names: seq<string>, i: nat)
    requires forall n :: n in names ==> n in counts
    requires i < |names|
    ensures names[i] in Segments(x, counts, names)
    ensures |Report(x, counts, names, true)[i].ks| == |Segments(x, counts, names)[names[i]]|
    ensures |Report(x, counts, names, true)[i].phases.value| == |Segments(x, counts, names)[names[i]]|
    ensures forall j :: 0 <= j < |Segments(x, counts, names)[names[i]]| ==>
              Signed(Report(x, counts, names, true)[i].ks[j], Report(x, counts, names, true)[i].phases.value[j])
              == Segments(x, counts, names)[names[i]][j]
  {
    SegmentsHasNames(x, counts, names);
  }
}
