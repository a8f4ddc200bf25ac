/**
 * The ISYBAU/IFC code tables and the classifiers built on them: labels for
 * surface codes, Manning-Strickler roughness for a pipe material, Horton
 * infiltration parameters and runoff coefficients for a surface function.
 *
 * A code is looked up as a JavaScript property key, so a numeric code is
 * represented here by its decimal key string ("1", "2", ...).
 */
module Mappings {
  import opened Wrappers

  // ---------------------------------------------------------------- labels

  const Flaechenfunktion: map<string, string> := map[
    "1" := "Dachfläche", "2" := "Grünfläche", "3" := "Verkehrsfläche",
    "4" := "sonstige Funktion", "5" := "Funktion nicht bekannt"]

  const Flaechenart: map<string, string> := map[
    "1" := "Einzel-/ Elementarfläche", "2" := "Sammelfläche", "3" := "Hauptfläche"]

  const Flaecheneigenschaft: map<string, string> := map[
    "1" := "befestigt", "2" := "teilbefestigt", "3" := "unbefestigt",
    "4" := "natürlich", "5" := "keine Information"]

  const Flaechennutzung: map<string, string> := map[
    "1" := "intensive landwirtschaftliche Nutzung", "2" := "extensive landwirtschaftliche Nutzung",
    "3" := "fließender motorisierter Verkehr", "4" := "fließender nicht motorisierter Verkehr",
    "5" := "ruhender Verkehr, PKW", "6" := "ruhender Verkehr, LKW",
    "7" := "technischer Bereich, PKW", "8" := "technischer Bereich, LKW",
    "9" := "keine Nutzung", "10" := "sonstige Nutzung"]

  const Verschmutzungsklasse: map<string, string> := map[
    "1" := "F1, geringe Verschmutzung", "2" := "F2, geringe Verschmutzung",
    "3" := "F3, geringe Verschmutzung", "4" := "F4, mittlere Verschmutzung",
    "5" := "F5, mittlere Verschmutzung", "6" := "F6, starke Verschmutzung",
    "7" := "F7, starke Verschmutzung"]

  const Neigungsklasse: map<string, string> := map[
    "1" := "≤1%", "2" := "< 1% bis 4%", "3" := "< 4 % bis 10 %",
    "4" := "< 10 % bis 14 %", "5" := "> 14 %"]

  const Profilart: map<string, string> := map[
    "0" := "Kreisprofil", "1" := "Eiprofil (H/B=3/2)", "2" := "Maulprofil (H/B = 1,66/2)",
    "3" := "Rechteckprofil (geschlossen)", "4" := "Kreisprofil (doppelwandig)",
    "5" := "Rechteckprofil (offen)", "6" := "Eiprofil (H/B ungleich 3/2)",
    "7" := "Maulprofil (H/B ungleich 1,66/2)", "8" := "Trapezprofil",
    "9" := "Doppeltrapezprofil", "10" := "U-förmig", "11" := "Bogenförmig",
    "12" := "oval", "13" := "andere Profilart"]

  const Status: map<string, string> := map[
    "0" := "vorhanden (in Betrieb)", "1" := "geplant", "2" := "fiktiv",
    "3" := "außer Betrieb", "4" := "verdämmt", "5" := "Sonstige"]

  /** The label table of a category `getMapping` knows, if any. */
  function CategoryTable(category: string): Option<map<string, string>> {
    match category
    case "Flaechenfunktion" => Some(Flaechenfunktion)
    case "Flaechenart" => Some(Flaechenart)
    case "Flaecheneigenschaft" => Some(Flaecheneigenschaft)
    case "Flaechennutzung" => Some(Flaechennutzung)
    case "Verschmutzungsklasse" => Some(Verschmutzungsklasse)
    case "Neigungsklasse" => Some(Neigungsklasse)
    case "Profilart" => Some(Profilart)
    case "Status" => Some(Status)
    case _ => None
  }

  /**
   * The label of `code` in `category`: the table's entry when the category is
   * known and the table has the code, the code itself otherwise. (No label is
   * empty, so the source's falsy-label fallback only applies to a missing code.)
   */
  function GetMapping(category: string, code: string): (shown: string)
    ensures CategoryTable(category).None? ==> shown == code
    ensures CategoryTable(category).Some? && code !in CategoryTable(category).value ==> shown == code
    ensures CategoryTable(category).Some? && code in CategoryTable(category).value
            ==> shown == CategoryTable(category).value[code]
  {
    match CategoryTable(category)
    case None => code
    case Some(table) => if code in table then table[code] else code
  }

  /** An unknown category shows every code as itself, whatever the code. */
  lemma UnknownCategoryShowsCode(category: string, code: string)
    requires category !in {"Flaechenfunktion", "Flaechenart", "Flaecheneigenschaft", "Flaechennutzung",
                           "Verschmutzungsklasse", "Neigungsklasse", "Profilart", "Status"}
    ensures GetMapping(category, code) == code
  {
  }

  // ------------------------------------------------------------- roughness

  /** The roughness options offered in the user interface (kSt, m^(1/3)/s). */
  const MaterialRoughness: map<string, int> := map[
    "Kunststoff" := 95, "Beton" := 80, "Steinzeug" := 90, "Metall" := 90,
    "Mauerwerk" := 60, "Kies" := 40, "Sand" := 50, "Wiese" := 30,
    "Verkrautet" := 10, "Erde" := 25, "Unbekannt" := 70]

  /** A material code: one to four letters. */
  type Code = s: string | 0 < |s| <= 4 witness "W"

  /** The ISYBAU material codes with their roughness. */
  const IsyIfcRoughness: map<Code, int> := map[
    "B" := 80, "SB" := 80, "BS" := 80, "OB" := 80, "P" := 80, "PC" := 85, "PCC" := 80,
    "SPB" := 80, "SFB" := 80, "SZB" := 75, "AZ" := 85, "FZ" := 85, "PHB" := 85,
    "STZ" := 90, "MA" := 60, "ZG" := 65,
    "PVC" := 95, "PVCU" := 95, "PE" := 95, "PEHD" := 95, "PP" := 95, "GFK" := 95,
    "GFKC" := 95, "GFUP" := 95, "GFVE" := 95, "KST" := 95, "PH" := 90, "SFEP" := 95,
    "SFUP" := 95, "SFVE" := 95, "TGEP" := 95,
    "ST" := 90, "CNS" := 90, "GG" := 85, "GGG" := 90, "GJS" := 90, "EIS" := 80,
    "BOD" := 30, "RAS" := 25, "PFL" := 60, "W" := 70, "MIX" := 70]

  const UnknownRoughness: int := 70

  /**
   * The keys of the UI table in the order the fuzzy search tries them: the
   * table's own key order, stably sorted by length, longest first.
   */
  const FuzzyKeys: seq<string> := [
    "Kunststoff", "Verkrautet", "Steinzeug", "Mauerwerk", "Unbekannt",
    "Metall", "Beton", "Wiese", "Kies", "Sand", "Erde"]

  /** `key` occurs in `s` as a contiguous substring. */
  predicate Includes(s: string, key: string)
    decreases |s|
  {
    |key| <= |s| && (s[..|key|] == key || Includes(s[1..], key))
  }

  /** The first key from position `k` of `FuzzyKeys` that `material` includes. */
  function FirstIncludedKey(material: string, k: nat): (r: Option<nat>)
    requires k <= |FuzzyKeys|
    ensures r.Some? ==> k <= r.value < |FuzzyKeys| && Includes(material, FuzzyKeys[r.value])
    ensures r.Some? ==> forall j :: k <= j < r.value ==> !Includes(material, FuzzyKeys[j])
    ensures r.None? ==> forall j :: k <= j < |FuzzyKeys| ==> !Includes(material, FuzzyKeys[j])
    decreases |FuzzyKeys| - k
  {
    if k == |FuzzyKeys| then None
    else if Includes(material, FuzzyKeys[k]) then Some(k)
    else FirstIncludedKey(material, k + 1)
  }

  /**
   * The roughness of a pipe material (`None` for a missing one): a falsy
   * material is unknown; then the UI table, the ISYBAU codes, the longest
   * UI key the material contains, and finally the unknown value.
   */
  function GetRoughness(material: Option<string>): (kst: int)
    ensures material.None? || material == Some("") ==> kst == UnknownRoughness
    ensures material.Some? && material.value in MaterialRoughness ==> kst == MaterialRoughness[material.value]
    ensures material.Some? && material.value !in MaterialRoughness && material.value in IsyIfcRoughness
            ==> kst == IsyIfcRoughness[material.value]
    ensures material.Some? && material.value != "" && material.value !in MaterialRoughness && material.value !in IsyIfcRoughness
            && (forall j :: 0 <= j < |FuzzyKeys| ==> !Includes(material.value, FuzzyKeys[j]))
            ==> kst == UnknownRoughness
    ensures kst in MaterialRoughness.Values || kst in IsyIfcRoughness.Values
  {
    assert MaterialRoughness["Unbekannt"] == UnknownRoughness;
    assert UnknownRoughness in MaterialRoughness.Values;
    if material.None? || material.value == "" then UnknownRoughness
    else if material.value in MaterialRoughness then MaterialRoughness[material.value]
    else if material.value in IsyIfcRoughness then IsyIfcRoughness[material.value]
    else
      match FirstIncludedKey(material.value, 0)
      case Some(k) => MaterialRoughness[FuzzyKeys[k]]
      case None => UnknownRoughness
  }

  /** The fuzzy search keys are exactly the UI table's keys, longest first. */
  lemma FuzzyKeysSortedByLength()
    ensures forall i, j :: 0 <= i < j < |FuzzyKeys| ==> |FuzzyKeys[i]| >= |FuzzyKeys[j]|
    ensures forall k :: k in MaterialRoughness <==> k in FuzzyKeys
  {
  }

  /**
   * The fuzzy search prefers the most specific key: when a material falls
   * through to it and contains a UI key, the result belongs to the first
   * contained key in the search order, so no longer UI key is contained and
   * among keys of equal length the earlier one wins.
   */
  lemma RoughnessPrefersLongestKey(material: string)
    requires material != "" && material !in MaterialRoughness && material !in IsyIfcRoughness
    requires exists j :: 0 <= j < |FuzzyKeys| && Includes(material, FuzzyKeys[j])
    ensures exists k :: 0 <= k < |FuzzyKeys| && Includes(material, FuzzyKeys[k])
                        && GetRoughness(Some(material)) == MaterialRoughness[FuzzyKeys[k]]
                        && (forall j :: 0 <= j < k ==> !Includes(material, FuzzyKeys[j]))
                        && (forall j :: 0 <= j < |FuzzyKeys| && |FuzzyKeys[j]| > |FuzzyKeys[k]|
                                        ==> !Includes(material, FuzzyKeys[j]))
  {
    var k := FuzzyRoughness(material);
    FirstKeyIsLongest(material, k);
  }

  /** A material that falls through the tables and contains a UI key gets the first contained key's value. */
  lemma FuzzyRoughness(material: string) returns (k: nat)
    requires material != "" && material !in MaterialRoughness && material !in IsyIfcRoughness
    requires exists j :: 0 <= j < |FuzzyKeys| && Includes(material, FuzzyKeys[j])
    ensures FirstIncludedKey(material, 0) == Some(k) && k < |FuzzyKeys|
    ensures GetRoughness(Some(material)) == MaterialRoughness[FuzzyKeys[k]]
  {
    k := FirstIncludedKey(material, 0).value;
  }

  /** Of two contained keys of equal length the one earlier in the table wins: a weedy plastic pipe is plastic. */
  lemma EqualLengthKeysTakeTheEarlier()
    ensures GetRoughness(Some("KunststoffVerkrautet")) == MaterialRoughness["Kunststoff"]
  {
    var m := "KunststoffVerkrautet";
    assert m[..10] == "Kunststoff";
    assert m !in MaterialRoughness;
    assert m !in IsyIfcRoughness;
    assert FirstIncludedKey(m, 0) == Some(0);
  }

  /** The first key the fuzzy search finds is one of the longest keys the material contains. */
  lemma FirstKeyIsLongest(material: string, k: nat)
    requires FirstIncludedKey(material, 0) == Some(k)
    ensures forall j :: 0 <= j < |FuzzyKeys| && |FuzzyKeys[j]| > |FuzzyKeys[k]| ==> !Includes(material, FuzzyKeys[j])
  {
    FuzzyKeysSortedByLength();
  }

  // ------------------------------------------------------- Horton, runoff

  /** Horton infiltration: max and min rate (mm/h), decay (1/h), drying time (d), max volume (mm). */
  datatype Horton = Horton(max: real, min: real, decay: real, dry: real, maxVol: real)

  const DefaultHorton := Horton(25.0, 5.0, 4.0, 7.0, 0.0)

  /** The Horton parameters of a surface function (`None` when it is not a number). */
  function GetHortonParams(func: Option<int>): (h: Horton)
    ensures func == Some(1) ==> h == Horton(50.0, 10.0, 4.0, 7.0, 0.0)
    ensures func == Some(2) ==> h == Horton(75.0, 12.0, 3.0, 5.0, 0.0)
    ensures func == Some(3) ==> h == Horton(15.0, 3.0, 4.0, 7.0, 0.0)
    ensures func !in {Some(1), Some(2), Some(3)} ==> h == DefaultHorton
  {
    match func
    case Some(1) => Horton(50.0, 10.0, 4.0, 7.0, 0.0)
    case Some(2) => Horton(75.0, 12.0, 3.0, 5.0, 0.0)
    case Some(3) => Horton(15.0, 3.0, 4.0, 7.0, 0.0)
    case Some(4) => Horton(25.0, 5.0, 4.0, 7.0, 0.0)
    case _ => DefaultHorton
  }

  /** Every parameter set is physically ordered: 0 < min rate < max rate, positive decay and drying. */
  lemma HortonParamsOrdered(func: Option<int>)
    ensures var h := GetHortonParams(func);
      0.0 < h.min < h.max && h.decay > 0.0 && h.dry > 0.0 && h.maxVol == 0.0
  {
  }

  /** Runoff coefficients by surface property, the last fallback. */
  const SurfaceRunoff: map<int, real> := map[1 := 0.90, 2 := 0.50, 3 := 0.10, 4 := 0.05, 5 := 0.50]

  /**
   * The runoff coefficient of a surface. `func` and `property` are `None` when
   * they are not numbers; `slopeClass` is `None` when a comparison with it is
   * false (undefined, NaN), so a roof counts as pitched and a green area as steep.
   */
  function GetRunoffCoeff(property: Option<int>, func: Option<int>, slopeClass: Option<real>): (psi: real)
    ensures func == Some(1) ==> psi == (if slopeClass.Some? && slopeClass.value <= 2.0 then 0.9 else 1.0)
    ensures func == Some(2) ==> psi == (if slopeClass.Some? && slopeClass.value <= 1.0 then 0.1 else 0.3)
    ensures func == Some(3) ==> psi == 0.9
    ensures func == Some(4) || func == Some(5) ==> psi == 0.5
    ensures func !in {Some(1), Some(2), Some(3), Some(4), Some(5)}
            ==> psi == (if property.Some? && property.value in SurfaceRunoff then SurfaceRunoff[property.value] else 0.5)
    ensures 0.05 <= psi <= 1.0
  {
    match func
    case Some(1) => if slopeClass.Some? && slopeClass.value <= 2.0 then 0.9 else 1.0
    case Some(2) => if slopeClass.Some? && slopeClass.value <= 1.0 then 0.1 else 0.3
    case Some(3) => 0.9
    case Some(4) => 0.5
    case Some(5) => 0.5
    case _ =>
      if property.Some? && property.value in SurfaceRunoff then SurfaceRunoff[property.value] else 0.5
  }

  /** A steeper slope class never lowers the runoff coefficient. */
  lemma RunoffMonotoneInSlope(property: Option<int>, func: Option<int>, s1: real, s2: real)
    requires s1 <= s2
    ensures GetRunoffCoeff(property, func, Some(s1)) <= GetRunoffCoeff(property, func, Some(s2))
  {
  }

  /** The surface function takes priority: for a known function the surface property plays no part. */
  lemma RunoffFunctionOverridesProperty(p1: Option<int>, p2: Option<int>, func: int, slopeClass: Option<real>)
    requires 1 <= func <= 5
    ensures GetRunoffCoeff(p1, Some(func), slopeClass) == GetRunoffCoeff(p2, Some(func), slopeClass)
  {
  }
}
