/**
 * The SWMM input builder: the rules by which ISYBAU nodes become junctions,
 * outfalls or storage units, areas become named subcatchments, and edges
 * become conduits with cross sections, with the warnings those rules add,
 * and the fixed-width field formatting (`pad`) of the generated sections.
 */
module SwmmBuilder {
  import opened Wrappers
  import opened JsText
  import opened JsNum
  import Sorting

  /** A property as the builder finds it on a domain object: missing (undefined or null), a string or a number. */
  datatype Field = Absent | Text(s: string) | Number(n: Num)

  /** Lines 192-196: `safeFloat`: the parsed number, or `def` when the value is missing, empty or not a number. */
  function SafeFloat(f: Field, def: real): real {
    match f
    case Absent => def
    case Text(s) => if s == "" then def else (var p := ParseFloat(s); if p.NaN? then def else p.value)
    case Number(n) => if n.NaN? then def else n.value
  }

  /** A missing, empty or NaN value gives the default, a number itself, a text the number `parseFloat` reads. */
  lemma SafeFloatFacts(f: Field, def: real)
    ensures f.Absent? || f == Text("") || f == Number(NaN) ==> SafeFloat(f, def) == def
    ensures f.Number? && f.n.Real? ==> SafeFloat(f, def) == f.n.value
    ensures f.Text? && f.s != "" && ParseFloat(f.s).Real? ==> SafeFloat(f, def) == ParseFloat(f.s).value
    ensures f.Text? && ParseFloat(f.s).NaN? ==> SafeFloat(f, def) == def
  {
  }

  // ----------------------------------------------------------------- pad

  /** Lines 569-577: `pad`. */
  function Pad(v: Field): string {
    match v
    case Absent => PadEnd("0", 10)
    case Number(n) => if n.NaN? then PadEnd("NaN", 10) else PadEnd(ToFixed(n.value, 3), 10)
    case Text(s) => PadEnd(s, 16)
  }

  function PadReal(x: real): string {
    Pad(Number(Real(x)))
  }

  /**
   * A missing value is a zero in a ten-wide field; a number is its text with
   * three decimals, a string the string itself, each followed by spaces up
   * to a field of ten or sixteen characters and never cut.
   */
  lemma PadFacts(v: Field)
    ensures v.Absent? ==> Pad(v) == "0         "
    ensures v.Number? && v.n.Real? ==> (
      var t := ToFixed(v.n.value, 3);
      && Pad(v)[..|t|] == t && Numeral(t)
      && |Pad(v)| == (if |t| < 10 then 10 else |t|)
      && forall k :: |t| <= k < |Pad(v)| ==> Pad(v)[k] == ' ')
    ensures v.Text? ==> (
      && Pad(v)[..|v.s|] == v.s
      && |Pad(v)| == (if |v.s| < 16 then 16 else |v.s|)
      && forall k :: |v.s| <= k < |Pad(v)| ==> Pad(v)[k] == ' ')
  {
    if v.Number? && v.n.Real? {
      ToFixedFacts(v.n.value, 3);
    }
  }

  // -------------------------------------------------------------- nodes

  datatype Node = Node(
    id: string,
    typeText: string,     // String(n.type)
    subtype: Field,
    isSink: bool,         // n.is_sink === true
    volume: Field,
    z: Field)

  datatype Kind = Junction | Outfall | Storage

  /** Line 217: the marks that make a node an outfall. */
  predicate MarkedOutfall(n: Node) {
    n.typeText == "5" || n.typeText == "Auslaufbauwerk" || n.subtype == Number(Real(5.0)) || n.isSink
  }

  /** Lines 208-224: a positive volume makes storage, an outfall mark an outfall, anything else a junction. */
  function KindOf(n: Node): Kind {
    if SafeFloat(n.volume, 0.0) > 0.0 then Storage
    else if MarkedOutfall(n) then Outfall
    else Junction
  }

  /** The nodes of kind `k` under the classification `kind`, in input order. */
  function OfKind(nodes: seq<Node>, kind: Node -> Kind, k: Kind): seq<Node>
    decreases |nodes|
  {
    if nodes == [] then []
    else
      var init := OfKind(nodes[..|nodes| - 1], kind, k);
      if kind(nodes[|nodes| - 1]) == k then init + [nodes[|nodes| - 1]] else init
  }

  /** One more node extends the list of its own kind, under the classification of the source, and no other. */
  lemma KindSteps(nodes: seq<Node>, i: nat)
    requires i < |nodes|
    ensures OfKind(nodes[..i + 1], KindOf, Junction) == OfKind(nodes[..i], KindOf, Junction) + (if KindOf(nodes[i]) == Junction then [nodes[i]] else [])
    ensures OfKind(nodes[..i + 1], KindOf, Outfall) == OfKind(nodes[..i], KindOf, Outfall) + (if KindOf(nodes[i]) == Outfall then [nodes[i]] else [])
    ensures OfKind(nodes[..i + 1], KindOf, Storage) == OfKind(nodes[..i], KindOf, Storage) + (if KindOf(nodes[i]) == Storage then [nodes[i]] else [])
  {
    assert nodes[..i + 1][..i] == nodes[..i];
  }

  /** A node is in the list of its own kind and in no other. */
  lemma {:induction false} OfKindMembers(nodes: seq<Node>, kind: Node -> Kind, k: Kind)
    ensures forall n :: n in OfKind(nodes, kind, k) <==> n in nodes && kind(n) == k
    decreases |nodes|
  {
    if nodes != [] {
      var init := nodes[..|nodes| - 1];
      OfKindMembers(init, kind, k);
      assert forall n :: n in nodes <==> n in init || n == nodes[|nodes| - 1];
    }
  }

  /** The three lists together hold every node exactly as often as the input does. */
  lemma {:induction false} OfKindPartition(nodes: seq<Node>, kind: Node -> Kind)
    ensures multiset(OfKind(nodes, kind, Junction)) + multiset(OfKind(nodes, kind, Outfall)) + multiset(OfKind(nodes, kind, Storage))
      == multiset(nodes)
    decreases |nodes|
  {
    if nodes != [] {
      var init := nodes[..|nodes| - 1];
      OfKindPartition(init, kind);
      assert nodes == init + [nodes[|nodes| - 1]];
    }
  }

  /** The sort key of `(a, b) => a.z - b.z`. */
  function Elevation(n: Node): real {
    SafeFloat(n.z, 0.0)
  }

  /** Line 233: the warning that the lowest junction was made the outfall. */
  function FallbackWarning(id: string): string {
    "Warnung: Kein Auslauf definiert." + id + " wurde automatisch als Auslauf gesetzt."
  }

  datatype Classes = Classes(junctions: seq<Node>, outfalls: seq<Node>, storage: seq<Node>, warning: Option<string>)

  /**
   * The nodes by kind; without an outfall but with junctions, the junctions
   * are sorted by `key` and the first becomes the outfall.
   */
  function Classify(nodes: seq<Node>, kind: Node -> Kind, key: Node -> real): Classes {
    var j, o, s := OfKind(nodes, kind, Junction), OfKind(nodes, kind, Outfall), OfKind(nodes, kind, Storage);
    if |o| == 0 && |j| > 0 then
      var sorted := Sorting.SortBy(j, key);
      Classes(sorted[1..], [sorted[0]], s, Some(FallbackWarning(sorted[0].id)))
    else Classes(j, o, s, None)
  }

  /** Lines 203-234: the classification of `classifyAndAddNodes`. */
  function Classified(nodes: seq<Node>): Classes {
    Classify(nodes, KindOf, Elevation)
  }

  /** Every node lands in exactly one of the three lists, storage in the storage list. */
  lemma ClassifyPartition(nodes: seq<Node>, kind: Node -> Kind, key: Node -> real)
    ensures var c := Classify(nodes, kind, key);
      && multiset(c.junctions) + multiset(c.outfalls) + multiset(c.storage) == multiset(nodes)
      && c.storage == OfKind(nodes, kind, Storage)
  {
    OfKindPartition(nodes, kind);
    var j := OfKind(nodes, kind, Junction);
    if |OfKind(nodes, kind, Outfall)| == 0 && |j| > 0 {
      var sorted := Sorting.SortBy(j, key);
      assert sorted == [sorted[0]] + sorted[1..];
    }
  }

  /** The fallback happens exactly when no node is an outfall and some is a junction; it moves the first lowest junction. */
  lemma ClassifyFallback(nodes: seq<Node>, kind: Node -> Kind, key: Node -> real)
    ensures var c := Classify(nodes, kind, key);
      && (c.warning.None? ==> c.outfalls == OfKind(nodes, kind, Outfall))
      && (c.warning.Some? <==> OfKind(nodes, kind, Outfall) == [] && OfKind(nodes, kind, Junction) != [])
      && (c.warning.Some? ==> (
        var j := OfKind(nodes, kind, Junction);
        var lowest := j[Sorting.FirstMinimum(j, key)];
        && c.outfalls == [lowest] && c.warning == Some(FallbackWarning(lowest.id))
        && forall n :: n in c.junctions ==> key(lowest) <= key(n)))
  {
    var j := OfKind(nodes, kind, Junction);
    if |OfKind(nodes, kind, Outfall)| == 0 && |j| > 0 {
      var sorted := Sorting.SortBy(j, key);
      Sorting.SortBySorted(j, key);
      Sorting.SortByHeadIsFirstMinimum(j, key);
      forall n | n in sorted[1..]
        ensures key(sorted[0]) <= key(n)
      {
        var k :| 0 <= k < |sorted[1..]| && sorted[1..][k] == n;
        assert sorted[k + 1] == n;
      }
    }
  }

  /** There is no outfall only when every node is storage. */
  lemma ClassifyHasOutfall(nodes: seq<Node>, kind: Node -> Kind, key: Node -> real)
    ensures Classify(nodes, kind, key).outfalls == [] <==> forall n :: n in nodes ==> kind(n) == Storage
  {
    var j, o := OfKind(nodes, kind, Junction), OfKind(nodes, kind, Outfall);
    OfKindMembers(nodes, kind, Junction);
    OfKindMembers(nodes, kind, Outfall);
    if |o| == 0 && |j| > 0 {
      assert j[0] in nodes;
    } else if |o| > 0 {
      assert o[0] in nodes;
    }
  }

  /**
   * Every node lands in exactly one list; storage holds the nodes with a
   * positive volume. Without the fallback the outfalls are the marked
   * nodes; with it (only when no node is marked and some is a junction) the
   * single outfall is the first junction of lowest elevation and a warning
   * names it. There is an outfall unless every node is storage.
   */
  lemma ClassifiedFacts(nodes: seq<Node>)
    ensures var c := Classified(nodes);
      && multiset(c.junctions) + multiset(c.outfalls) + multiset(c.storage) == multiset(nodes)
      && (forall n :: n in c.storage <==> n in nodes && SafeFloat(n.volume, 0.0) > 0.0)
      && (c.warning.None? ==> forall n :: n in c.outfalls <==> n in nodes && SafeFloat(n.volume, 0.0) <= 0.0 && MarkedOutfall(n))
      && (c.warning.Some? ==> (
        var j := OfKind(nodes, KindOf, Junction);
        var lowest := j[Sorting.FirstMinimum(j, Elevation)];
        && c.outfalls == [lowest] && c.warning == Some(FallbackWarning(lowest.id))
        && (forall n :: n in nodes ==> KindOf(n) != Outfall)
        && forall n :: n in c.junctions ==> Elevation(lowest) <= Elevation(n)))
      && (c.outfalls == [] <==> forall n :: n in nodes ==> SafeFloat(n.volume, 0.0) > 0.0)
  {
    ClassifyPartition(nodes, KindOf, Elevation);
    ClassifyFallback(nodes, KindOf, Elevation);
    ClassifyHasOutfall(nodes, KindOf, Elevation);
    OfKindMembers(nodes, KindOf, Outfall);
    OfKindMembers(nodes, KindOf, Storage);
  }

  // -------------------------------------------------------------- areas

  datatype Area = Area(
    id: string,           // "" when the area has none
    size: Field,
    slope: Field,
    splitRatio: Field,
    nodeId: string,       // "" when missing
    nodeId2: string)

  /** One subcatchment line's data: its name, outlet node, size in hectares and slope in percent. */
  datatype Subcatchment = Subcatchment(name: string, outlet: string, size: real, slope: real)

  /** `${name}_${counter}` */
  function Suffixed(name: string, k: nat): string {
    name + "_" + NatToString(k)
  }

  /** Different counters give different names. */
  lemma SuffixedInjective(name: string, j: nat, k: nat)
    requires j != k
    ensures Suffixed(name, j) != Suffixed(name, k)
  {
    assert Suffixed(name, j)[|name| + 1..] == NatToString(j);
    assert Suffixed(name, k)[|name| + 1..] == NatToString(k);
  }

  /** The suffixed names the search has already rejected. */
  ghost function Tried(name: string, k: nat): set<string> {
    set j | 1 <= j < k :: Suffixed(name, j)
  }

  /** Rejecting a used candidate leaves fewer used names to run into. */
  lemma TriedStep(used: set<string>, name: string, k: nat)
    requires k >= 1 && Suffixed(name, k) in used
    ensures |used - Tried(name, k + 1)| < |used - Tried(name, k)|
  {
    forall j | 1 <= j < k
      ensures Suffixed(name, j) != Suffixed(name, k)
    {
      SuffixedInjective(name, j, k);
    }
    assert Tried(name, k + 1) == Tried(name, k) + {Suffixed(name, k)};
    assert used - Tried(name, k + 1) == (used - Tried(name, k)) - {Suffixed(name, k)};
  }

  /** The first counter from `k` on whose suffixed name is free. */
  function FreeSuffix(used: set<string>, name: string, k: nat): (r: nat)
    requires k >= 1
    ensures r >= k && Suffixed(name, r) !in used
    ensures forall j :: k <= j < r ==> Suffixed(name, j) in used
    decreases |used - Tried(name, k)|
  {
    if Suffixed(name, k) in used then
      TriedStep(used, name, k);
      FreeSuffix(used, name, k + 1)
    else k
  }

  /** Lines 126-130: a used name gets the smallest counter suffix that is free. */
  function UniqueName(used: set<string>, name: string): (r: string)
    ensures r !in used
    ensures name !in used ==> r == name
    ensures name in used ==> exists k :: k >= 1 && r == Suffixed(name, k) && forall j :: 1 <= j < k ==> Suffixed(name, j) in used
  {
    if name !in used then name
    else
      Suffixed(name, FreeSuffix(used, name, 1))
  }

  /** Line 125: the area's id, or `Area_` with random characters (a parameter) when it has none. */
  function BaseName(area: Area, draw: string): string {
    if area.id != "" then area.id else "Area_" + draw
  }

  /** Lines 139-146: the slope class's percentage, 0.5 with a warning for any other class. */
  function SlopeOf(slope: Field): Option<real> {
    if slope == Number(Real(2.0)) then Some(2.5)
    else if slope == Number(Real(3.0)) then Some(7.0)
    else if slope == Number(Real(4.0)) then Some(12.0)
    else if slope == Number(Real(5.0)) then Some(20.0)
    else None
  }

  /** Line 145: the warning that an area's slope class was missing. */
  function SlopeWarning(name: string): string {
    "Fläche " + name + ": Gefälleklasse fehlte, gesetzt auf 0.5 % (Standard)."
  }

  /** Line 149: a second outlet node that is not blank splits the area. */
  predicate HasSplit(area: Area) {
    Trim(area.nodeId2) != ""
  }

  /** Line 161: the outlet, or `FK003` when the area names none. */
  function Outlet(nodeId: string): string {
    if nodeId != "" then nodeId else "FK003"
  }

  /** Lines 177-184: the two parts of a split area, by the split percentage. */
  function SplitSizes(sizeHa: real, ratio: real): (real, real) {
    (sizeHa * (ratio / 100.0), sizeHa * (1.0 - ratio / 100.0))
  }

  /** The two parts of a split area add up to the whole. */
  lemma SplitSizesSum(sizeHa: real, ratio: real)
    ensures SplitSizes(sizeHa, ratio).0 + SplitSizes(sizeHa, ratio).1 == sizeHa
    ensures 0.0 <= ratio <= 100.0 && sizeHa >= 0.0 ==> SplitSizes(sizeHa, ratio).0 >= 0.0 && SplitSizes(sizeHa, ratio).1 >= 0.0
  {
    var a := ratio / 100.0;
    assert sizeHa * a + sizeHa * (1.0 - a) == sizeHa * (a + (1.0 - a));
  }

  /** The names used so far, the subcatchments made so far and the warnings. */
  datatype Naming = Naming(used: set<string>, subcatchments: seq<Subcatchment>, warnings: seq<string>)

  /** The subcatchments of one area with name `name` for the first and `second` for a split's second part. */
  function AreaEntries(area: Area, name: string, second: string): seq<Subcatchment> {
    var size := SafeFloat(area.size, 0.01);
    var slope := if SlopeOf(area.slope).Some? then SlopeOf(area.slope).value else 0.5;
    if HasSplit(area) then
      var sizes := SplitSizes(size, SafeFloat(area.splitRatio, 50.0));
      [Subcatchment(name, Outlet(area.nodeId), sizes.0, slope), Subcatchment(second, Outlet(area.nodeId2), sizes.1, slope)]
    else [Subcatchment(name, Outlet(area.nodeId), size, slope)]
  }

  function AreaWarnings(area: Area, name: string): seq<string> {
    if SlopeOf(area.slope).None? then [SlopeWarning(name)] else []
  }

  /** Lines 124-184 for one area, as written: only the first name is made unique and remembered. */
  function AreaStepAsWritten(s: Naming, area: Area, draw: string): Naming {
    var name := UniqueName(s.used, BaseName(area, draw));
    Naming(s.used + {name}, s.subcatchments + AreaEntries(area, name, name + "_2"), s.warnings + AreaWarnings(area, name))
  }

  function SubcatchmentsAsWritten(areas: seq<Area>, draws: seq<string>): Naming
    requires |draws| == |areas|
    decreases |areas|
  {
    if areas == [] then Naming({}, [], [])
    else
      var n := |areas| - 1;
      AreaStepAsWritten(SubcatchmentsAsWritten(areas[..n], draws[..n]), areas[n], draws[n])
  }

  /** Splitting area `A` first names its parts `A` and `A_2` and remembers only `A`. */
  lemma FirstSplitArea()
    ensures var s1 := SubcatchmentsAsWritten([Area("A", Absent, Absent, Absent, "N1", "N2")], [""]);
      s1.used == {"A"} && |s1.subcatchments| == 2 && s1.subcatchments[1].name == "A_2"
  {
    var a1 := Area("A", Absent, Absent, Absent, "N1", "N2");
    assert [a1][..0] == [] && [""][..0] == [];
    assert SubcatchmentsAsWritten([a1], [""]) == AreaStepAsWritten(Naming({}, [], []), a1, "");
    FirstAreaStep(a1);
    FirstAreaEntries(a1);
  }

  lemma FirstAreaStep(a1: Area)
    requires a1.id == "A"
    ensures AreaStepAsWritten(Naming({}, [], []), a1, "").used == {"A"}
    ensures AreaStepAsWritten(Naming({}, [], []), a1, "").subcatchments == AreaEntries(a1, "A", "A_2")
  {
    assert BaseName(a1, "") == "A" && "A" + "_2" == "A_2";
    assert UniqueName({}, "A") == "A";
  }

  lemma FirstAreaEntries(a1: Area)
    requires a1.nodeId2 == "N2"
    ensures |AreaEntries(a1, "A", "A_2")| == 2 && AreaEntries(a1, "A", "A_2")[1].name == "A_2"
  {
    assert HasSplit(a1) by {
      assert TrimStart("N2") == "N2";
      assert TrimEnd("N2") == "N2";
    }
  }

  /** An area `A` split in two followed by an area `A_2`: the second part of `A` and the next area share a name. */
  lemma SplitNameCollision()
    ensures var areas := [Area("A", Absent, Absent, Absent, "N1", "N2"), Area("A_2", Absent, Absent, Absent, "N3", "")];
      var r := SubcatchmentsAsWritten(areas, ["", ""]);
      |r.subcatchments| == 3 && r.subcatchments[1].name == "A_2" && r.subcatchments[2].name == "A_2"
  {
    var a1 := Area("A", Absent, Absent, Absent, "N1", "N2");
    var a2 := Area("A_2", Absent, Absent, Absent, "N3", "");
    FirstSplitArea();
    assert [a1, a2][..1] == [a1] && ["", ""][..1] == [""];
    assert Trim("") == "";
    assert UniqueName({"A"}, "A_2") == "A_2";
  }

  /**
   * One area with both names made unique and remembered: the second part of
   * a split gets `name_2`, or the smallest free suffix of it when that is
   * taken.
   */
  function AreaStep(s: Naming, area: Area, draw: string): Naming {
    var name := UniqueName(s.used, BaseName(area, draw));
    var second := UniqueName(s.used + {name}, name + "_2");
    var used := if HasSplit(area) then s.used + {name, second} else s.used + {name};
    Naming(used, s.subcatchments + AreaEntries(area, name, second), s.warnings + AreaWarnings(area, name))
  }

  function Subcatchments(areas: seq<Area>, draws: seq<string>): Naming
    requires |draws| == |areas|
    decreases |areas|
  {
    if areas == [] then Naming({}, [], [])
    else
      var n := |areas| - 1;
      AreaStep(Subcatchments(areas[..n], draws[..n]), areas[n], draws[n])
  }

  lemma SubcatchmentsStep(areas: seq<Area>, draws: seq<string>, i: nat)
    requires |draws| == |areas| && i < |areas|
    ensures Subcatchments(areas[..i + 1], draws[..i + 1]) == AreaStep(Subcatchments(areas[..i], draws[..i]), areas[i], draws[i])
  {
    assert areas[..i + 1][..i] == areas[..i] && draws[..i + 1][..i] == draws[..i];
  }

  /** No two subcatchments share a name, and every name is remembered as used. */
  predicate NamesDistinct(s: Naming) {
    && (forall i, j :: 0 <= i < j < |s.subcatchments| ==> s.subcatchments[i].name != s.subcatchments[j].name)
    && (forall i :: 0 <= i < |s.subcatchments| ==> s.subcatchments[i].name in s.used)
  }

  lemma AreaStepKeepsNamesDistinct(s: Naming, area: Area, draw: string)
    requires NamesDistinct(s)
    ensures NamesDistinct(AreaStep(s, area, draw))
  {
    var name := UniqueName(s.used, BaseName(area, draw));
    var second := UniqueName(s.used + {name}, name + "_2");
    var e := AreaEntries(area, name, second);
    EntryNames(area, name, second);
    var r := AreaStep(s, area, draw);
    assert r == Naming(r.used, s.subcatchments + e, r.warnings);
    assert name !in s.used && second !in s.used && second != name;
    assert name in r.used && s.used <= r.used;
    assert HasSplit(area) ==> second in r.used;
    forall k | 0 <= k < |e|
      ensures e[k].name !in s.used && e[k].name in r.used
    {
      assert e[k].name == if k == 0 then name else second;
    }
    AppendKeepsNamesDistinct(s, e, r.used, r.warnings);
  }

  /** New entries whose names are fresh, distinct and remembered keep the names distinct. */
  lemma AppendKeepsNamesDistinct(s: Naming, e: seq<Subcatchment>, used: set<string>, warnings: seq<string>)
    requires NamesDistinct(s) && s.used <= used
    requires forall k :: 0 <= k < |e| ==> e[k].name !in s.used && e[k].name in used
    requires forall k, l :: 0 <= k < l < |e| ==> e[k].name != e[l].name
    ensures NamesDistinct(Naming(used, s.subcatchments + e, warnings))
  {
    var all := s.subcatchments + e;
    var m := |s.subcatchments|;
    forall i, j | 0 <= i < j < |all|
      ensures all[i].name != all[j].name
    {
      if j < m {
        assert all[i] == s.subcatchments[i] && all[j] == s.subcatchments[j];
      } else if i < m {
        assert all[i] == s.subcatchments[i] && all[j] == e[j - m];
      } else {
        assert all[i] == e[i - m] && all[j] == e[j - m];
      }
    }
    forall i | 0 <= i < |all|
      ensures all[i].name in used
    {
      if i < m {
        assert all[i] == s.subcatchments[i];
      } else {
        assert all[i] == e[i - m];
      }
    }
  }

  /** The entries of an area carry its name, and the second name when it is split. */
  lemma EntryNames(area: Area, name: string, second: string)
    ensures |AreaEntries(area, name, second)| == if HasSplit(area) then 2 else 1
    ensures AreaEntries(area, name, second)[0].name == name
    ensures HasSplit(area) ==> AreaEntries(area, name, second)[1].name == second
  {
  }

  /** All subcatchment names differ. */
  lemma {:induction false} SubcatchmentNamesUnique(areas: seq<Area>, draws: seq<string>)
    requires |draws| == |areas|
    ensures NamesDistinct(Subcatchments(areas, draws))
    decreases |areas|
  {
    if areas != [] {
      var n := |areas| - 1;
      SubcatchmentNamesUnique(areas[..n], draws[..n]);
      AreaStepKeepsNamesDistinct(Subcatchments(areas[..n], draws[..n]), areas[n], draws[n]);
    }
  }

  /** The number of areas with a split. */
  function SplitCount(areas: seq<Area>): nat
    decreases |areas|
  {
    if areas == [] then 0 else SplitCount(areas[..|areas| - 1]) + (if HasSplit(areas[|areas| - 1]) then 1 else 0)
  }

  /** Every area yields one subcatchment, two when split, in area order; the warnings are one per unknown slope class. */
  lemma {:induction false} SubcatchmentCount(areas: seq<Area>, draws: seq<string>)
    requires |draws| == |areas|
    ensures |Subcatchments(areas, draws).subcatchments| == |areas| + SplitCount(areas)
    ensures |Subcatchments(areas, draws).warnings| <= |areas|
    decreases |areas|
  {
    if areas != [] {
      var n := |areas| - 1;
      SubcatchmentCount(areas[..n], draws[..n]);
    }
  }

  // -------------------------------------------------------------- edges

  datatype Profile = Profile(kind: Field, height: Field, width: Field, slope: Field)

  datatype Edge = Edge(
    id: string,
    fromNodeId: string,
    toNodeId: string,
    length: Field,
    roughness: Field,
    z1: Field,
    z2: Field,
    profile: Option<Profile>)

  /** A node's position for the length fallback; its elevation is the node's `z`. */
  datatype Located = Located(x: Field, y: Field)

  datatype Conduit = Conduit(id: string, from: string, to: string, length: real, roughness: real,
                             inOffset: real, outOffset: real)

  datatype XSection = XSection(id: string, shape: string, geom1: real, geom2: real, geom3: real, geom4: real)

  /** `new Map(nodes.map(n => [n.id, n])).get(id)`: the last node with this id. */
  function NodeById(nodes: seq<(Node, Located)>, id: string): (r: Option<(Node, Located)>)
    ensures r.Some? ==> r.value in nodes && r.value.0.id == id
    ensures r.None? <==> forall k :: 0 <= k < |nodes| ==> nodes[k].0.id != id
    decreases |nodes|
  {
    if nodes == [] then None
    else if nodes[|nodes| - 1].0.id == id then Some(nodes[|nodes| - 1])
    else NodeById(nodes[..|nodes| - 1], id)
  }

  /** Lines 444-454: Manning's n from a Strickler value; a value up to 1 is taken as Manning's n already. */
  function Manning(kst: real): real {
    if kst <= 0.0 then 0.011 else if kst > 1.0 then 1.0 / kst else kst
  }

  /** Manning's n always lies in (0, 1]; above 1 it is the reciprocal of the Strickler value. */
  lemma ManningFacts(kst: real)
    ensures 0.0 < Manning(kst) <= 1.0
    ensures kst > 1.0 ==> Manning(kst) * kst == 1.0
    ensures 0.0 < kst <= 1.0 ==> Manning(kst) == kst
    ensures kst <= 0.0 ==> Manning(kst) == 0.011
  {
  }

  /** The `-9999` sentinel of lines 466-467: the edge gives no invert elevation. */
  const NoElevation: real := -9999.0

  /** Lines 469-470: the pipe invert's height above the node's, never negative; 0 without an invert. */
  function Offset(z: real, nodeZ: real): real {
    if z != NoElevation then (if 0.0 < z - nodeZ then z - nodeZ else 0.0) else 0.0
  }

  lemma OffsetFacts(z: real, nodeZ: real)
    ensures Offset(z, nodeZ) >= 0.0
    ensures z != NoElevation && z >= nodeZ ==> Offset(z, nodeZ) == z - nodeZ
    ensures z == NoElevation || z <= nodeZ ==> Offset(z, nodeZ) == 0.0
  {
  }

  /** Line 416: the warning that an edge was skipped for a missing node. */
  function MissingNodesWarning(id: string): string {
    "Kante " + id + " ignoriert: Fehlende Knoten."
  }

  /**
   * Lines 420-440: the edge's length; a length up to 0.001 is replaced by
   * the distance between the nodes when both have coordinates (`sqrt` is
   * `Math.sqrt`), and by 10 when that is still at most 0.01. The second
   * component is the warning this adds.
   */
  function LinkLength(e: Edge, a: Located, b: Located, sqrt: real -> real): (real, Option<string>) {
    var length := SafeFloat(e.length, 0.0);
    if length > 0.001 then (length, None)
    else
      var x1, y1, x2, y2 := SafeFloat(a.x, 0.0), SafeFloat(a.y, 0.0), SafeFloat(b.x, 0.0), SafeFloat(b.y, 0.0);
      var computed := if (x1 != 0.0 || y1 != 0.0) && (x2 != 0.0 || y2 != 0.0)
        then sqrt((x1 - x2) * (x1 - x2) + (y1 - y2) * (y1 - y2)) else length;
      if computed <= 0.01 then (10.0, Some("Haltung " + e.id + ": Länge fehlte / 0, gesetzt auf 10.0m."))
      else (computed, Some("Haltung " + e.id + ": Länge fehlte, berechnet aus Koordinaten: " + ToFixed(computed, 2) + " m."))
  }

  /** A conduit is never shorter than 0.001; a replaced length comes with a warning. */
  lemma LinkLengthFacts(e: Edge, a: Located, b: Located, sqrt: real -> real)
    ensures LinkLength(e, a, b, sqrt).0 > 0.001
    ensures LinkLength(e, a, b, sqrt).1.None? <==> SafeFloat(e.length, 0.0) > 0.001
    ensures LinkLength(e, a, b, sqrt).1.None? ==> LinkLength(e, a, b, sqrt).0 == SafeFloat(e.length, 0.0)
  {
  }

  /** Line 449: the warning that a conduit's roughness was missing, if it was. */
  function RoughnessWarnings(e: Edge): seq<string> {
    if SafeFloat(e.roughness, 0.0) <= 0.0 then ["Haltung " + e.id + ": Rauheit fehlte, gesetzt auf 0.011(PVC)."] else []
  }

  /** The shapes that need a width. */
  predicate NeedsWidth(shape: string) {
    StartsWith(shape, "RECT") || shape == "TRAPEZOIDAL" || shape == "ARCH"
  }

  function WidthOr(width: real, height: real): real {
    if width > 0.0 then width else height
  }

  /** Lines 475-515: the cross section the profile names, before the defaults. */
  function RawSection(id: string, profile: Option<Profile>): XSection {
    if profile.None? then XSection(id, "CIRCULAR", 1.0, 0.0, 0.0, 0.0)
    else
      var p := profile.value;
      var h, w := SafeFloat(p.height, 0.0), SafeFloat(p.width, 0.0);
      if p.kind == Number(Real(0.0)) || p.kind == Text("Circular") || p.kind == Text("Kreisprofil") then XSection(id, "CIRCULAR", h, 0.0, 0.0, 0.0)
      else if p.kind == Number(Real(1.0)) || p.kind == Text("Egg") then XSection(id, "EGG", h, 0.0, 0.0, 0.0)
      else if p.kind == Number(Real(3.0)) || p.kind == Text("Rechteckprofil") then XSection(id, "RECT_CLOSED", h, WidthOr(w, h), 0.0, 0.0)
      else if p.kind == Number(Real(5.0)) then XSection(id, "RECT_OPEN", h, WidthOr(w, h), 0.0, 0.0)
      else if p.kind == Number(Real(8.0)) then
        var s := SafeFloat(p.slope, 1.5);
        XSection(id, "TRAPEZOIDAL", h, w, s, s)
      else if p.kind == Number(Real(2.0)) || p.kind == Number(Real(7.0)) then XSection(id, "ARCH", h, WidthOr(w, h), 0.0, 0.0)
      else XSection(id, "CIRCULAR", h, 0.0, 0.0, 0.0)
  }

  /** Lines 518-527: a height up to 0.001 becomes 1, and so does the width of a shape that needs one. */
  function Section(id: string, profile: Option<Profile>): (XSection, seq<string>) {
    var raw := RawSection(id, profile);
    var lowHeight, lowWidth := raw.geom1 <= 0.001, NeedsWidth(raw.shape) && raw.geom2 <= 0.001;
    var section := raw.(geom1 := if lowHeight then 1.0 else raw.geom1, geom2 := if lowWidth then 1.0 else raw.geom2);
    var heightWarning := if lowHeight then ["Haltung " + id + ": Profilhöhe fehlte / 0, gesetzt auf 1.000m."] else [];
    var widthWarning := if lowWidth then ["Haltung " + id + ": Profilbreite fehlte / 0, gesetzt auf 1.000m."] else [];
    (section, heightWarning + widthWarning)
  }

  /** Which shapes need a width. */
  lemma ShapeWidths()
    ensures !NeedsWidth("CIRCULAR") && !NeedsWidth("EGG")
    ensures NeedsWidth("RECT_CLOSED") && NeedsWidth("RECT_OPEN") && NeedsWidth("TRAPEZOIDAL") && NeedsWidth("ARCH")
  {
    assert "CIRCULAR"[..4] != "RECT" by {
      assert "CIRCULAR"[..4][0] == 'C';
    }
    assert "RECT_CLOSED"[..4] == "RECT" && "RECT_OPEN"[..4] == "RECT";
  }

  /**
   * Every cross section has a height above 0.001, and a width above 0.001
   * when its shape needs one; the shape is the profile's or circular; a
   * trapezoid has equal side slopes; a replaced dimension comes with a warning.
   */
  lemma SectionFacts(id: string, profile: Option<Profile>)
    ensures var (x, w) := Section(id, profile);
      && x.id == id && x.geom1 > 0.001
      && (NeedsWidth(x.shape) ==> x.geom2 > 0.001)
      && x.shape in {"CIRCULAR", "EGG", "RECT_CLOSED", "RECT_OPEN", "TRAPEZOIDAL", "ARCH"}
      && (x.shape == "TRAPEZOIDAL" ==> x.geom3 == x.geom4)
      && (profile.None? ==> x == XSection(id, "CIRCULAR", 1.0, 0.0, 0.0, 0.0) && w == [])
      && |w| == (if RawSection(id, profile).geom1 <= 0.001 then 1 else 0)
              + (if NeedsWidth(x.shape) && RawSection(id, profile).geom2 <= 0.001 then 1 else 0)
  {
    ShapeWidths();
  }

  /** The outcome for one edge: skipped with a warning, or a conduit and cross section with their warnings. */
  datatype LinkOutcome = Skipped(warning: string) | Linked(conduit: Conduit, section: XSection, warnings: seq<string>)

  /** Lines 412-529 for one edge. */
  function LinkOf(e: Edge, nodes: seq<(Node, Located)>, sqrt: real -> real): LinkOutcome {
    var n1, n2 := NodeById(nodes, e.fromNodeId), NodeById(nodes, e.toNodeId);
    if n1.None? || n2.None? then Skipped(MissingNodesWarning(e.id))
    else
      var (length, lengthWarning) := LinkLength(e, n1.value.1, n2.value.1, sqrt);
      var inOffset := Offset(SafeFloat(e.z1, NoElevation), SafeFloat(n1.value.0.z, 0.0));
      var outOffset := Offset(SafeFloat(e.z2, NoElevation), SafeFloat(n2.value.0.z, 0.0));
      var conduit := Conduit(e.id, e.fromNodeId, e.toNodeId, length, Manning(SafeFloat(e.roughness, 0.0)), inOffset, outOffset);
      var (section, sectionWarnings) := Section(e.id, e.profile);
      var warnings := (if lengthWarning.Some? then [lengthWarning.value] else []) + RoughnessWarnings(e) + sectionWarnings;
      Linked(conduit, section, warnings)
  }

  /**
   * An edge is skipped exactly when a node it names is missing; a conduit
   * joins the edge's two nodes, with a length above 0.001, Manning's n in
   * (0, 1] and offsets that are not negative.
   */
  lemma LinkOfFacts(e: Edge, nodes: seq<(Node, Located)>, sqrt: real -> real)
    ensures var r := LinkOf(e, nodes, sqrt);
      && (r.Skipped? <==> NodeById(nodes, e.fromNodeId).None? || NodeById(nodes, e.toNodeId).None?)
      && (r.Skipped? ==> r.warning == MissingNodesWarning(e.id))
      && (r.Linked? ==> (
        && r.conduit.id == e.id && r.conduit.from == e.fromNodeId && r.conduit.to == e.toNodeId
        && r.conduit.length > 0.001 && 0.0 < r.conduit.roughness <= 1.0
        && r.conduit.inOffset >= 0.0 && r.conduit.outOffset >= 0.0
        && r.section.id == e.id && r.section.geom1 > 0.001))
  {
    var n1, n2 := NodeById(nodes, e.fromNodeId), NodeById(nodes, e.toNodeId);
    if n1.Some? && n2.Some? {
      LinkLengthFacts(e, n1.value.1, n2.value.1, sqrt);
      ManningFacts(SafeFloat(e.roughness, 0.0));
      OffsetFacts(SafeFloat(e.z1, NoElevation), SafeFloat(n1.value.0.z, 0.0));
      OffsetFacts(SafeFloat(e.z2, NoElevation), SafeFloat(n2.value.0.z, 0.0));
      SectionFacts(e.id, e.profile);
    }
  }

  const ConduitsHeader: string :=
    "[CONDUITS]\n;;Name           Node1          Node2          Length     Roughness  InOffset   OutOffset  InitFlow   MaxFlow\n"
  const XSectionsHeader: string :=
    "[XSECTIONS]\n;;Link           Shape      Geom1      Geom2      Geom3      Geom4      Barrels\n"

  /** Line 472 */
  function ConduitLine(c: Conduit): string {
    Pad(Text(c.id)) + " " + Pad(Text(c.from)) + " " + Pad(Text(c.to)) + " " + PadReal(c.length) + " "
    + PadReal(c.roughness) + " " + PadReal(c.inOffset) + " " + PadReal(c.outOffset) + " 0 0\n"
  }

  /** Line 529 */
  function XSectionLine(x: XSection): string {
    Pad(Text(x.id)) + " " + Pad(Text(x.shape)) + " " + PadReal(x.geom1) + " " + PadReal(x.geom2) + " "
    + PadReal(x.geom3) + " " + PadReal(x.geom4) + " 1\n"
  }

  /** The conduit lines, the cross-section lines and the warnings of the edges, in edge order. */
  datatype Links = Links(conduits: string, sections: string, warnings: seq<string>)

  /** The outcome of every edge, in edge order. */
  function Outcomes(edges: seq<Edge>, nodes: seq<(Node, Located)>, sqrt: real -> real): (r: seq<LinkOutcome>)
    ensures |r| == |edges| && forall i :: 0 <= i < |edges| ==> r[i] == LinkOf(edges[i], nodes, sqrt)
  {
    seq(|edges|, i requires 0 <= i < |edges| => LinkOf(edges[i], nodes, sqrt))
  }

  /** The lines and warnings of the outcomes, accumulated in order. */
  function Gather(outcomes: seq<LinkOutcome>): Links
    decreases |outcomes|
  {
    if outcomes == [] then Links("", "", [])
    else
      var l := Gather(outcomes[..|outcomes| - 1]);
      match outcomes[|outcomes| - 1]
      case Skipped(w) => l.(warnings := l.warnings + [w])
      case Linked(c, x, ws) => Links(l.conduits + ConduitLine(c), l.sections + XSectionLine(x), l.warnings + ws)
  }

  function LinksOf(edges: seq<Edge>, nodes: seq<(Node, Located)>, sqrt: real -> real): Links {
    Gather(Outcomes(edges, nodes, sqrt))
  }

  /** Each skipped edge adds its own warning, so edges with missing nodes never go unreported. */
  lemma {:induction false} SkippedEdgesWarned(outcomes: seq<LinkOutcome>)
    ensures |Gather(outcomes).warnings| >= |SkippedIndices(outcomes)|
    decreases |outcomes|
  {
    if outcomes != [] {
      SkippedEdgesWarned(outcomes[..|outcomes| - 1]);
      SkippedIndicesStep(outcomes);
      GatherWarningsStep(outcomes);
    }
  }

  /** The indices of the skipped outcomes. */
  function SkippedIndices(outcomes: seq<LinkOutcome>): set<int> {
    set i | 0 <= i < |outcomes| && outcomes[i].Skipped?
  }

  lemma SkippedIndicesStep(outcomes: seq<LinkOutcome>)
    requires outcomes != []
    ensures var n := |outcomes| - 1;
      |SkippedIndices(outcomes)| == |SkippedIndices(outcomes[..n])| + (if outcomes[n].Skipped? then 1 else 0)
  {
    var n := |outcomes| - 1;
    assert SkippedIndices(outcomes) == SkippedIndices(outcomes[..n]) + (if outcomes[n].Skipped? then {n} else {});
  }

  lemma GatherWarningsStep(outcomes: seq<LinkOutcome>)
    requires outcomes != []
    ensures var n := |outcomes| - 1;
      |Gather(outcomes).warnings| >= |Gather(outcomes[..n]).warnings| + (if outcomes[n].Skipped? then 1 else 0)
  {
  }

  /** When every edge is skipped both sections stay empty. */
  lemma {:induction false} AllSkippedNoLines(outcomes: seq<LinkOutcome>)
    requires forall i :: 0 <= i < |outcomes| ==> outcomes[i].Skipped?
    ensures Gather(outcomes).conduits == "" && Gather(outcomes).sections == ""
    decreases |outcomes|
  {
    if outcomes != [] {
      AllSkippedNoLines(outcomes[..|outcomes| - 1]);
    }
  }

  // ------------------------------------------------------------ builder

  class Builder {
    var sections: seq<string>
    var warnings: seq<string>

    /** Lines 7-19: no sections and no warnings yet. */
    constructor()
      ensures sections == [] && warnings == []
    {
      sections, warnings := [], [];
    }

    /** Lines 198-234: the classification of `classifyAndAddNodes`, with its fallback warning. */
    method ClassifyNodes(nodes: seq<Node>) returns (junctions: seq<Node>, outfalls: seq<Node>, storage: seq<Node>)
      modifies this
      ensures Classified(nodes) == Classes(junctions, outfalls, storage, Classified(nodes).warning)
      ensures warnings == old(warnings) + (if Classified(nodes).warning.Some? then [Classified(nodes).warning.value] else [])
      ensures sections == old(sections)  // the junction, outfall and storage section text is abstracted away
    {
      junctions, outfalls, storage := SplitByKind(nodes);
      if |outfalls| == 0 && |junctions| > 0 {
        var sorted := Sorting.SortBy(junctions, Elevation);
        var lowest := sorted[0];
        assert Classified(nodes) == Classes(sorted[1..], [lowest], storage, Some(FallbackWarning(lowest.id)));
        junctions := sorted[1..];
        outfalls := outfalls + [lowest];
        warnings := warnings + [FallbackWarning(lowest.id)];
      } else {
        assert Classified(nodes) == Classes(junctions, outfalls, storage, None);
      }
    }

    /** Lines 203-225: the nodes of each kind, in input order. */
    static method SplitByKind(nodes: seq<Node>) returns (junctions: seq<Node>, outfalls: seq<Node>, storage: seq<Node>)
      ensures junctions == OfKind(nodes, KindOf, Junction)
      ensures outfalls == OfKind(nodes, KindOf, Outfall)
      ensures storage == OfKind(nodes, KindOf, Storage)
    {
      junctions, outfalls, storage := [], [], [];
      for i := 0 to |nodes|
        invariant junctions == OfKind(nodes[..i], KindOf, Junction)
        invariant outfalls == OfKind(nodes[..i], KindOf, Outfall)
        invariant storage == OfKind(nodes[..i], KindOf, Storage)
      {
        KindSteps(nodes, i);
        var n := nodes[i];
        if SafeFloat(n.volume, 0.0) > 0.0 {
          storage := storage + [n];
          continue;
        }
        if MarkedOutfall(n) {
          outfalls := outfalls + [n];
        } else {
          junctions := junctions + [n];
        }
      }
      assert nodes[..|nodes|] == nodes;
    }

    /** The first counter from 1 on whose suffixed name is free, found as the loop of line 128 does. */
    static method FreeName(used: set<string>, name: string) returns (unique: string)
      ensures unique == UniqueName(used, name)
    {
      unique := name;
      if name in used {
        var counter := 1;
        while Suffixed(name, counter) in used
          invariant counter >= 1
          invariant FreeSuffix(used, name, counter) == FreeSuffix(used, name, 1)
          decreases |used - Tried(name, counter)|
        {
          TriedStep(used, name, counter);
          counter := counter + 1;
        }
        unique := Suffixed(name, counter);
      }
    }

    /** Lines 125-184 for one area. */
    static method NameArea(s: Naming, area: Area, draw: string) returns (r: Naming)
      ensures r == AreaStep(s, area, draw)
    {
      var usedNames := s.used;
      var name := FreeName(usedNames, BaseName(area, draw));
      var second := FreeName(usedNames + {name}, name + "_2");
      usedNames := usedNames + {name};
      if HasSplit(area) {
        usedNames := usedNames + {second};
      }
      r := Naming(usedNames, s.subcatchments + AreaEntries(area, name, second), s.warnings + AreaWarnings(area, name));
    }

    /**
     * Lines 114-185: the subcatchments of the areas with unique names, and
     * their slope warnings; `draws` are the random characters of line 125.
     */
    method AddSubcatchments(areas: seq<Area>, draws: seq<string>) returns (subcatchments: seq<Subcatchment>)
      requires |draws| == |areas|
      modifies this
      ensures subcatchments == Subcatchments(areas, draws).subcatchments
      ensures warnings == old(warnings) + Subcatchments(areas, draws).warnings
      ensures sections == old(sections)  // the subcatchment section text is abstracted away
    {
      var named := NameAreas(areas, draws);
      subcatchments := named.subcatchments;
      warnings := warnings + named.warnings;
    }

    /** The loop of lines 124-185 over the areas, threading the set of used names. */
    static method NameAreas(areas: seq<Area>, draws: seq<string>) returns (r: Naming)
      requires |draws| == |areas|
      ensures r == Subcatchments(areas, draws)
    {
      var usedNames: set<string> := {};
      var subcatchments: seq<Subcatchment> := [];
      var added: seq<string> := [];
      for i := 0 to |areas|
        invariant Subcatchments(areas[..i], draws[..i]) == Naming(usedNames, subcatchments, added)
      {
        SubcatchmentsStep(areas, draws, i);
        var next := NameArea(Naming(usedNames, subcatchments, added), areas[i], draws[i]);
        usedNames, subcatchments, added := next.used, next.subcatchments, next.warnings;
      }
      assert areas[..|areas|] == areas && draws[..|draws|] == draws;
      r := Naming(usedNames, subcatchments, added);
    }

    /** Lines 405-534: the conduit and cross-section sections of the edges, and their warnings. */
    method AddLinks(edges: seq<Edge>, nodes: seq<(Node, Located)>, sqrt: real -> real)
      modifies this
      ensures sections == old(sections) + [ConduitsHeader + LinksOf(edges, nodes, sqrt).conduits,
                                           XSectionsHeader + LinksOf(edges, nodes, sqrt).sections]
      ensures warnings == old(warnings) + LinksOf(edges, nodes, sqrt).warnings
    {
      var conduits, xsections, added := "", "", [];
      ghost var outcomes := Outcomes(edges, nodes, sqrt);
      for i := 0 to |edges|
        invariant Gather(outcomes[..i]) == Links(conduits, xsections, added)
      {
        assert outcomes[..i + 1][..i] == outcomes[..i];
        match LinkOf(edges[i], nodes, sqrt)
        case Skipped(w) =>
          added := added + [w];
        case Linked(c, x, ws) =>
          conduits := conduits + ConduitLine(c);
          xsections := xsections + XSectionLine(x);
          added := added + ws;
      }
      assert outcomes[..|edges|] == outcomes;
      sections := sections + [ConduitsHeader + conduits, XSectionsHeader + xsections];
      warnings := warnings + added;
    }
  }
}
