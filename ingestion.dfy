/**
 * How `DihedralFitter.__init__` groups its inputs. Each input series is
 * filed under the name of its canonical dihedral type; the first series of
 * a type fixes that type's multiplicities, phase restrictions and restraint
 * forces, every later series of the type must declare the same three
 * lists, and the parameter dimension grows by the term count of each new
 * type.
 */
module Ingestion {
  import opened Outcomes
  import opened LexOrder
  import opened DihedralType
  import opened Partition

  /** What reading one series file gives: its whitespace-split header and its sampled angles (degrees). */
  datatype SeriesFile = SeriesFile(header: seq<string>, angles: seq<real>)

  /** One element of `zip(dihedral_files, allowed_m, phase, pforce)`. */
  datatype Entry = Entry(file: SeriesFile, ms: seq<int>, ps: seq<int>, pf: seq<real>)

  /** `zip` of the four per-file lists: it stops at the shortest. */
  function Zip4(files: seq<SeriesFile>, allowedM: seq<seq<int>>, phase: seq<seq<int>>,
                pforce: seq<seq<real>>): (entries: seq<Entry>)
    ensures |entries| <= |files| && |entries| <= |allowedM| && |entries| <= |phase| && |entries| <= |pforce|
    ensures |entries| == |files| || |entries| == |allowedM| || |entries| == |phase| || |entries| == |pforce|
    ensures forall i :: 0 <= i < |entries| ==> entries[i] == Entry(files[i], allowedM[i], phase[i], pforce[i])
  {
    var n := |files|;
    var n := if |allowedM| < n then |allowedM| else n;
    var n := if |phase| < n then |phase| else n;
    var n := if |pforce| < n then |pforce| else n;
    seq(n, i requires 0 <= i < n => Entry(files[i], allowedM[i], phase[i], pforce[i]))
  }

  /** The dihedral-type name an entry is filed under. */
  function Key(e: Entry): Result<string>
  {
    DihedralName(e.file.header)
  }

  /** The fitter's tables after some of the entries; `names` in first-occurrence order. */
  datatype Grouping = Grouping(
    dihedralDict: map<string, seq<seq<real>>>,
    mDict: map<string, seq<int>>,
    pDict: map<string, seq<int>>,
    pforceDict: map<string, seq<real>>,
    names: seq<string>,
    dimension: nat)

  /** The term count of every type: `len(m_dict[n])`. */
  function Counts(mDict: map<string, seq<int>>): (counts: map<string, nat>)
    ensures counts.Keys == mDict.Keys
  {
    map n | n in mDict :: |mDict[n]|
  }

  /** The four tables are keyed by the same names. */
  predicate Tables(g: Grouping)
  {
    && g.mDict.Keys == g.dihedralDict.Keys
    && g.pDict.Keys == g.dihedralDict.Keys
    && g.pforceDict.Keys == g.dihedralDict.Keys
  }

  /** The tables are keyed by exactly the listed names, and no name is listed twice. */
  ghost predicate WellFormed(g: Grouping)
  {
    && Tables(g)
    && g.dihedralDict.Keys == (set n | n in g.names)
    && Distinct(g.names)
  }

  /** The dimension is the total term count of the listed types. */
  ghost predicate DimensionAgrees(g: Grouping)
  {
    && (forall n :: n in g.names ==> n in g.mDict)
    && g.dimension == Offset(Counts(g.mDict), g.names)
  }

  /** One turn of the ingestion loop. */
  function Add(g: Grouping, e: Entry): (r: Result<Grouping>)
    requires Tables(g)
    ensures r.Success? ==> Tables(r.value)
    ensures r.Success? ==> Key(e).Success? && r.value.dihedralDict.Keys == g.dihedralDict.Keys + {Key(e).value}
    ensures r.Success? ==> StoredSpec(r.value, e)
  {
    match Key(e)
    case Failure(err) => Failure(err)
    case Success(name) =>
      if name in g.dihedralDict then
        if g.mDict[name] != e.ms then Failure(AssertionError("self.m_dict[dihedral_name] == ms"))
        else if g.pDict[name] != e.ps then Failure(AssertionError("self.p_dict[dihedral_name] == ps"))
        else if g.pforceDict[name] != e.pf then Failure(AssertionError("self.pforce_dict[dihedral_name] == pf"))
        else Success(g.(dihedralDict := g.dihedralDict[name := g.dihedralDict[name] + [e.file.angles]]))
      else
        Success(Grouping(g.dihedralDict[name := [e.file.angles]], g.mDict[name := e.ms], g.pDict[name := e.ps],
                         g.pforceDict[name := e.pf], g.names + [name], g.dimension + |e.ms|))
  }

  /** A turn that succeeds keeps the tables well formed: a new type is listed once. */
  lemma AddKeepsWellFormed(g: Grouping, e: Entry)
    requires WellFormed(g) && Add(g, e).Success?
    ensures WellFormed(Add(g, e).value)
  {
    var name := Key(e).value;
    if name in g.dihedralDict {
      var series := g.dihedralDict[name] + [e.file.angles];
      assert Add(g, e).value == g.(dihedralDict := g.dihedralDict[name := series]);
      AppendKeepsWellFormed(g, name, series);
    } else {
      assert Add(g, e).value == Grouping(g.dihedralDict[name := [e.file.angles]], g.mDict[name := e.ms],
                                         g.pDict[name := e.ps], g.pforceDict[name := e.pf],
                                         g.names + [name], g.dimension + |e.ms|);
      NewTypeKeepsWellFormed(g, name, e);
    }
  }

  lemma AppendKeepsWellFormed(g: Grouping, name: string, series: seq<seq<real>>)
    requires WellFormed(g) && name in g.dihedralDict
    ensures WellFormed(g.(dihedralDict := g.dihedralDict[name := series]))
  {
    var g' := g.(dihedralDict := g.dihedralDict[name := series]);
    assert g'.dihedralDict.Keys == g.dihedralDict.Keys;
  }

  lemma NewTypeKeepsWellFormed(g: Grouping, name: string, e: Entry)
    requires WellFormed(g) && name !in g.dihedralDict
    ensures WellFormed(Grouping(g.dihedralDict[name := [e.file.angles]], g.mDict[name := e.ms], g.pDict[name := e.ps],
                                g.pforceDict[name := e.pf], g.names + [name], g.dimension + |e.ms|))
  {
    NewTypeListed(g.dihedralDict, g.names, name, [e.file.angles]);
    AppendDistinct(g.names, name);
  }

  lemma NewTypeListed(dict: map<string, seq<seq<real>>>, names: seq<string>, name: string, series: seq<seq<real>>)
    requires dict.Keys == (set n | n in names)
    ensures dict[name := series].Keys == (set n | n in names + [name])
  {
  }

  lemma AppendDistinct(s: seq<string>, x: string)
    requires Distinct(s) && x !in s
    ensures Distinct(s + [x])
  {
    var t := s + [x];
    forall i, j | 0 <= i < j < |t|
      ensures t[i] != t[j]
    {
      assert t[i] == s[i];
    }
  }

  lemma NewTypeDimension(mDict: map<string, seq<int>>, name: string, ms: seq<int>, names: seq<string>)
    requires forall n :: n in names ==> n in mDict
    requires name !in names
    ensures Offset(Counts(mDict[name := ms]), names + [name]) == Offset(Counts(mDict), names) + |ms|
  {
    var counts := Counts(mDict);
    var counts' := Counts(mDict[name := ms]);
    assert forall n :: n in names ==> n in counts && n in counts' && counts[n] == counts'[n];
    OffsetFrame(counts, counts', names);
    var names' := names + [name];
    assert names'[..|names|] == names;
  }

  /** The tables after the whole loop, or the first exception it raises. */
  function Group(entries: seq<Entry>): (r: Result<Grouping>)
    ensures r.Success? ==> Tables(r.value)
  {
    if |entries| == 0 then Success(Grouping(map[], map[], map[], map[], [], 0))
    else
      match Group(entries[..|entries| - 1])
      case Failure(err) => Failure(err)
      case Success(g) => Add(g, entries[|entries| - 1])
  }

  /** After a loop that does not raise, the tables are keyed by exactly the listed names, each listed once. */
  lemma {:induction false} GroupWellFormed(entries: seq<Entry>)
    requires Group(entries).Success?
    ensures WellFormed(Group(entries).value)
  {
    if |entries| > 0 {
      var init := entries[..|entries| - 1];
      GroupWellFormed(init);
      AddKeepsWellFormed(Group(init).value, entries[|entries| - 1]);
    }
  }

  /** A turn that succeeds adds the term count of a new type to the dimension and leaves it alone otherwise. */
  lemma AddKeepsDimension(g: Grouping, e: Entry)
    requires WellFormed(g) && DimensionAgrees(g) && Add(g, e).Success?
    ensures DimensionAgrees(Add(g, e).value)
  {
    var name := Key(e).value;
    if name in g.dihedralDict {
      assert Add(g, e).value == g.(dihedralDict := g.dihedralDict[name := g.dihedralDict[name] + [e.file.angles]]);
    } else {
      assert Add(g, e).value == Grouping(g.dihedralDict[name := [e.file.angles]], g.mDict[name := e.ms],
                                         g.pDict[name := e.ps], g.pforceDict[name := e.pf],
                                         g.names + [name], g.dimension + |e.ms|);
      NewTypeDimension(g.mDict, name, e.ms, g.names);
    }
  }

  /** The dimension after ingestion is the total term count of the listed types. */
  lemma {:induction false} GroupDimension(entries: seq<Entry>)
    requires Group(entries).Success?
    ensures DimensionAgrees(Group(entries).value)
  {
    if |entries| > 0 {
      var init := entries[..|entries| - 1];
      GroupDimension(init);
      GroupWellFormed(init);
      AddKeepsDimension(Group(init).value, entries[|entries| - 1]);
    }
  }

  lemma GroupStep(entries: seq<Entry>)
    requires |entries| > 0 && Group(entries[..|entries| - 1]).Success?
    ensures Group(entries) == Add(Group(entries[..|entries| - 1]).value, entries[|entries| - 1])
  {
  }

  /** Once a prefix of the entries raises, the whole loop raises the same exception. */
  lemma {:induction false} GroupFailurePersists(entries: seq<Entry>, k: nat)
    requires k <= |entries| && Group(entries[..k]).Failure?
    ensures Group(entries) == Group(entries[..k])
  {
    if k < |entries| {
      var init := entries[..|entries| - 1];
      assert init[..k] == entries[..k];
      GroupFailurePersists(init, k);
    } else {
      assert entries[..k] == entries;
    }
  }

  /** A successful loop had a successful loop on every prefix. */
  lemma {:induction false} GroupPrefixSucceeds(entries: seq<Entry>, k: nat)
    requires k <= |entries| && Group(entries).Success?
    ensures Group(entries[..k]).Success?
  {
    if Group(entries[..k]).Failure? {
      GroupFailurePersists(entries, k);
    }
  }

  /** Some entry is filed under `n`. */
  ghost predicate Occurs(entries: seq<Entry>, n: string)
  {
    exists i :: 0 <= i < |entries| && Key(entries[i]) == Success(n)
  }

  lemma OccursSplit(entries: seq<Entry>, n: string)
    requires |entries| > 0
    ensures Occurs(entries, n) <==>
              Occurs(entries[..|entries| - 1], n) || Key(entries[|entries| - 1]) == Success(n)
  {
    var init := entries[..|entries| - 1];
    if Occurs(init, n) {
      var i :| 0 <= i < |init| && Key(init[i]) == Success(n);
      assert entries[i] == init[i];
    }
    if Occurs(entries, n) {
      var i :| 0 <= i < |entries| && Key(entries[i]) == Success(n);
      if i < |init| {
        assert entries[i] == init[i];
      }
    }
  }

  /** A type is in the tables exactly when some entry is filed under it. */
  lemma {:induction false} GroupKeys(entries: seq<Entry>, n: string)
    requires Group(entries).Success?
    ensures n in Group(entries).value.dihedralDict <==> Occurs(entries, n)
  {
    if |entries| > 0 {
      GroupPrefixSucceeds(entries, |entries| - 1);
      GroupKeys(entries[..|entries| - 1], n);
      OccursSplit(entries, n);
    }
  }

  /** The listed names are exactly the keys that occur among the entries, each once. */
  lemma GroupNames(entries: seq<Entry>)
    requires Group(entries).Success?
    ensures forall n :: n in Group(entries).value.names <==> Occurs(entries, n)
    ensures Distinct(Group(entries).value.names)
  {
    GroupWellFormed(entries);
    forall n
      ensures n in Group(entries).value.names <==> Occurs(entries, n)
    {
      GroupKeys(entries, n);
    }
  }

  /** The series of the entries filed under `n`, in input order. */
  function SeriesNamed(entries: seq<Entry>, n: string): seq<seq<real>>
  {
    if |entries| == 0 then []
    else
      var last := entries[|entries| - 1];
      SeriesNamed(entries[..|entries| - 1], n) + (if Key(last) == Success(n) then [last.file.angles] else [])
  }

  /** Each type holds one series per entry filed under it, in input order. */
  lemma {:induction false} GroupSeries(entries: seq<Entry>, n: string)
    requires Group(entries).Success?
    ensures n in Group(entries).value.dihedralDict ==> Group(entries).value.dihedralDict[n] == SeriesNamed(entries, n)
    ensures n !in Group(entries).value.dihedralDict ==> SeriesNamed(entries, n) == []
  {
    if |entries| > 0 {
      GroupPrefixSucceeds(entries, |entries| - 1);
      GroupSeries(entries[..|entries| - 1], n);
    }
  }

  /** Every type in the tables holds at least one series. */
  lemma {:induction false} GroupSeriesNonempty(entries: seq<Entry>, n: string)
    requires Group(entries).Success? && n in Group(entries).value.dihedralDict
    ensures |Group(entries).value.dihedralDict[n]| > 0
  {
    var init := entries[..|entries| - 1];
    GroupPrefixSucceeds(entries, |entries| - 1);
    GroupStep(entries);
    if n in Group(init).value.dihedralDict {
      GroupSeriesNonempty(init, n);
    }
    AddKeepsNonempty(Group(init).value, entries[|entries| - 1], n);
  }

  lemma AddKeepsNonempty(g: Grouping, e: Entry, n: string)
    requires Tables(g) && Add(g, e).Success? && n in Add(g, e).value.dihedralDict
    requires n in g.dihedralDict ==> |g.dihedralDict[n]| > 0
    ensures |Add(g, e).value.dihedralDict[n]| > 0
  {
    var name := Key(e).value;
    if name in g.dihedralDict {
      assert Add(g, e).value.dihedralDict == g.dihedralDict[name := g.dihedralDict[name] + [e.file.angles]];
    } else {
      assert Add(g, e).value.dihedralDict == g.dihedralDict[name := [e.file.angles]];
    }
  }

  /** A later turn never changes the lists stored for a type. */
  lemma AddKeepsStored(g: Grouping, e: Entry, earlier: Entry)
    requires Tables(g) && Add(g, e).Success? && StoredSpec(g, earlier)
    ensures StoredSpec(Add(g, e).value, earlier)
  {
  }

  /**
   * Every entry's multiplicities, phase restrictions and restraint forces
   * are those stored for its type, so the stored lists are the first
   * occurrence's.
   */
  lemma {:induction false} GroupSpecs(entries: seq<Entry>, i: nat)
    requires Group(entries).Success? && i < |entries|
    ensures StoredSpec(Group(entries).value, entries[i])
    decreases |entries|, 1
  {
    if i < |entries| - 1 {
      EarlierStored(entries, i);
    } else {
      LastStored(entries);
    }
  }

  lemma LastStored(entries: seq<Entry>)
    requires Group(entries).Success? && |entries| > 0
    ensures StoredSpec(Group(entries).value, entries[|entries| - 1])
  {
    GroupPrefixSucceeds(entries, |entries| - 1);
    GroupStep(entries);
  }

  lemma {:induction false} EarlierStored(entries: seq<Entry>, i: nat)
    requires Group(entries).Success? && i < |entries| - 1
    ensures StoredSpec(Group(entries).value, entries[i])
    decreases |entries|, 0
  {
    var init, last := entries[..|entries| - 1], entries[|entries| - 1];
    GroupPrefixSucceeds(entries, |entries| - 1);
    GroupStep(entries);
    GroupSpecs(init, i);
    AddKeepsStored(Group(init).value, last, init[i]);
    assert entries[i] == init[i];
  }

  /** The entry's key is listed and its three lists are the stored ones. */
  predicate StoredSpec(g: Grouping, e: Entry)
  {
    && Key(e).Success?
    && Key(e).value in g.mDict && g.mDict[Key(e).value] == e.ms
    && Key(e).value in g.pDict && g.pDict[Key(e).value] == e.ps
    && Key(e).value in g.pforceDict && g.pforceDict[Key(e).value] == e.pf
  }

  /** Every header names a type and every two entries of one type declare the same lists. */
  ghost predicate Consistent(entries: seq<Entry>)
  {
    && (forall i :: 0 <= i < |entries| ==> |entries[i].file.header| >= 4)
    && (forall i, j :: 0 <= i < j < |entries| && Key(entries[i]) == Key(entries[j]) ==> SameSpec(entries[i], entries[j]))
  }

  predicate SameSpec(a: Entry, b: Entry)
  {
    a.ms == b.ms && a.ps == b.ps && a.pf == b.pf
  }

  /** Ingestion raises exactly when some header is too short or two entries of one type disagree. */
  lemma {:induction false} GroupSucceedsIffConsistent(entries: seq<Entry>)
    ensures Group(entries).Success? <==> Consistent(entries)
  {
    if Group(entries).Success? {
      forall i, j | 0 <= i < j < |entries| && Key(entries[i]) == Key(entries[j])
        ensures SameSpec(entries[i], entries[j])
      {
        GroupSpecs(entries, i);
        GroupSpecs(entries, j);
      }
      forall i | 0 <= i < |entries|
        ensures |entries[i].file.header| >= 4
      {
        GroupSpecs(entries, i);
      }
    }
    if Consistent(entries) && |entries| > 0 {
      var init := entries[..|entries| - 1];
      var last := entries[|entries| - 1];
      assert Consistent(init) by {
        forall i | 0 <= i < |init| ensures init[i] == entries[i] { }
      }
      GroupSucceedsIffConsistent(init);
      var g := Group(init).value;
      var name := Key(last).value;
      if name in g.dihedralDict {
        GroupKeys(init, name);
        var i :| 0 <= i < |init| && Key(init[i]) == Success(name);
        GroupSpecs(init, i);
        assert init[i] == entries[i];
        assert SameSpec(entries[i], last);
      }
    }
  }
}
