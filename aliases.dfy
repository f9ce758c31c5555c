/** The variable alias table: a fixed lookup from the variable name a user
    asks for to the sensor category the station directory files modules
    under (`varMap` and `var2modVar` in utils/netatmo-buddy.js). */
module Aliases {

  /** The categories a station's `variables` object is keyed by. */
  const Categories: set<string> := {"temperature", "humidity", "pressure", "rain", "wind"}

  /** `varMap`: every name the user may ask for, in lower case, with its category. */
  const VarMap: map<string, string> := map[
    "temperature" := "temperature",
    "co2" := "pressure",
    "humidity" := "humidity",
    "pressure" := "pressure",
    "noise" := "pressure",
    "rain" := "rain",
    "min_temp" := "temperature",
    "max_temp" := "temperature",
    "min_hum" := "humidity",
    "max_hum" := "humidity",
    "min_pressure" := "pressure",
    "max_pressure" := "pressure",
    "min_noise" := "pressure",
    "max_noise" := "pressure",
    "sum_rain" := "rain",
    "date_min_temp" := "temperature",
    "date_max_temp" := "temperature",
    "date_min_hum" := "humidity",
    "date_max_hum" := "humidity",
    "date_min_pressure" := "pressure",
    "date_max_pressure" := "pressure",
    "date_min_noise" := "pressure",
    "date_max_noise" := "pressure",
    "date_min_co2" := "pressure",
    "date_max_co2" := "pressure"
  ]

  predicate IsUpper(c: char) {
    'A' <= c <= 'Z'
  }

  function LowerChar(c: char): (d: char)
    ensures !IsUpper(d)
    ensures IsUpper(c) ==> d as int == c as int + 32
    ensures !IsUpper(c) ==> d == c
  {
    if IsUpper(c) then (c as int + 32) as char else c
  }

  /** A string with no upper-case letter. */
  predicate IsLower(s: string) {
    forall i :: 0 <= i < |s| ==> !IsUpper(s[i])
  }

  /** `String.prototype.toLowerCase`, on the ASCII letters. */
  function ToLower(s: string): (r: string)
    ensures |r| == |s|
    ensures forall i :: 0 <= i < |s| ==> r[i] == LowerChar(s[i])
    ensures IsLower(r)
  {
    if s == [] then [] else [LowerChar(s[0])] + ToLower(s[1..])
  }

  /** A string that is already lower case is its own lower-case form. */
  lemma LowerIsFixed(s: string)
    requires IsLower(s)
    ensures ToLower(s) == s
  {
    assert forall i :: 0 <= i < |s| ==> ToLower(s)[i] == s[i];
  }

  lemma ToLowerIdempotent(s: string)
    ensures ToLower(ToLower(s)) == ToLower(s)
  {
    LowerIsFixed(ToLower(s));
  }

  /** `var2modVar`: the category of a requested variable name. The name is
      lower-cased first; a name the table does not know is returned in its
      lower-case form. */
  function Var2ModVar(userVar: string): (r: string)
    ensures ToLower(userVar) in VarMap ==> r in Categories && r == VarMap[ToLower(userVar)]
    ensures ToLower(userVar) !in VarMap ==> r == ToLower(userVar)
    ensures IsLower(r)
  {
    var lower := ToLower(userVar);
    if lower in VarMap then
      TableIsLower(lower);
      VarMap[lower]
    else
      lower
  }

  /** Every category in the table is written in lower case and is a key
      that maps to itself. */
  lemma TableIsLower(k: string)
    requires k in VarMap
    ensures VarMap[k] in Categories && IsLower(VarMap[k])
    ensures VarMap[k] in VarMap && VarMap[VarMap[k]] == VarMap[k]
  {
  }

  /** Looking a name up is insensitive to its case. */
  lemma CaseInsensitive(userVar: string)
    ensures Var2ModVar(userVar) == Var2ModVar(ToLower(userVar))
  {
    ToLowerIdempotent(userVar);
  }

  /** A category maps to itself, so resolving twice is resolving once. */
  lemma Var2ModVarIdempotent(userVar: string)
    ensures Var2ModVar(Var2ModVar(userVar)) == Var2ModVar(userVar)
  {
    var lower := ToLower(userVar);
    var r := Var2ModVar(userVar);
    LowerIsFixed(r);
    if lower in VarMap {
      TableIsLower(lower);
      assert ToLower(r) == r && r in VarMap && VarMap[r] == r;
    } else {
      assert ToLower(r) == r && r !in VarMap;
    }
  }

  /** The documented examples of the alias lookup. */
  lemma MaxTempIsTemperature()
    ensures Var2ModVar("MAX_TEMP") == "temperature"
  {
    LowerOf("MAX_TEMP", "max_temp");
  }

  lemma SumRainIsRain()
    ensures Var2ModVar("sum_rain") == "rain"
  {
    LowerOf("sum_rain", "sum_rain");
  }

  lemma Co2IsPressure()
    ensures Var2ModVar("co2") == "pressure"
  {
    LowerOf("co2", "co2");
  }

  lemma UnknownNameIsKept()
    ensures Var2ModVar("unknown_xyz") == "unknown_xyz"
  {
    LowerOf("unknown_xyz", "unknown_xyz");
    NotInTable();
  }

  lemma NotInTable()
    ensures "unknown_xyz" !in VarMap
  {
  }

  lemma LowerOf(s: string, t: string)
    requires |s| == |t| && forall i :: 0 <= i < |s| ==> LowerChar(s[i]) == t[i]
    ensures ToLower(s) == t
  {
  }
}
