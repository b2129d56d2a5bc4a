/** Underserved flagging (analysis/07_flag_underserved.py): the population
    field names are detected from the first feature of the neighbourhood
    GeoJSON; then every feature's properties get the population without
    access, its percentage and two flags, written in place, while two
    counters tally the flags. */
module FlagUnderserved {
  import opened Common

  /** The optional "most residents lack access" threshold, in percent. */
  const UNDERSERVED_PCT_THRESHOLD: Option<real> := Some(50.0)

  const TOTAL_POP_KEYS: seq<string> := ["total_pop", "total_population", "POPULATION", "population", "neigh_total_pop"]
  const POP15_KEYS: seq<string> := ["pop_within_15", "total_pop_within_15", "neigh_pop_within_15", "pop15"]
  const NAME_KEYS: seq<string> := ["neighborhood_name", "NAME", "name", "NAMELSAD"]

  const POP_WITHOUT_KEY: string := "pop_without_15"
  const PCT_WITHOUT_KEY: string := "pct_without_15"
  const STRICT_KEY: string := "is_underserved"
  const THRESHOLD_FLAG_KEY: string := "is_underserved_threshold"
  const THRESHOLD_PCT_KEY: string := "underserved_threshold_pct"
  const LABEL_KEY: string := "label"

  /** The five keys written into every feature's properties. */
  const COMPUTED_KEYS: set<string> := {POP_WITHOUT_KEY, PCT_WITHOUT_KEY, STRICT_KEY, THRESHOLD_FLAG_KEY, THRESHOLD_PCT_KEY}

  /** `first_key`: the earliest candidate present in `props`. */
  function FirstKey(props: map<string, Json>, candidates: seq<string>): (k: Option<string>)
    ensures k.None? <==> forall c :: c in candidates ==> c !in props
    ensures k.Some? ==> exists i :: 0 <= i < |candidates| && candidates[i] == k.value && k.value in props
                                    && forall j :: 0 <= j < i ==> candidates[j] !in props
  {
    if candidates == [] then None
    else if candidates[0] in props then Some(candidates[0])
    else
      var r := FirstKey(props, candidates[1..]);
      if r.Some? then FirstKeyShift(props, candidates, r.value); r else r
  }

  /** A first match in the tail of the candidates, after a head that does
      not match, is the first match of the whole list. */
  lemma FirstKeyShift(props: map<string, Json>, candidates: seq<string>, k: string)
    requires candidates != [] && candidates[0] !in props
    requires exists i :: 0 <= i < |candidates[1..]| && candidates[1..][i] == k && k in props
                         && forall j :: 0 <= j < i ==> candidates[1..][j] !in props
    ensures exists i :: 0 <= i < |candidates| && candidates[i] == k && k in props
                        && forall j :: 0 <= j < i ==> candidates[j] !in props
  {
    var i :| 0 <= i < |candidates[1..]| && candidates[1..][i] == k && k in props
             && forall j :: 0 <= j < i ==> candidates[1..][j] !in props;
    forall j | 0 <= j < i + 1 ensures candidates[j] !in props {
      if j > 0 {
        assert candidates[j] == candidates[1..][j - 1];
      }
    }
    assert candidates[i + 1] == k;
  }

  /** `to_int(props.get(key), default)`: None (an absent key or a JSON null)
      gives the default, a number its rounded value, a boolean 0 or 1;
      strings, lists and objects give the default. */
  function ToInt(x: Option<Json>, default: int): (n: int)
    ensures x.None? || x == Some(JNull) ==> n == default
    ensures x.Some? && x.value.JNum? ==> x.value.x - 0.5 <= n as real <= x.value.x + 0.5
    ensures x.Some? && x.value.JBool? ==> n == (if x.value.b then 1 else 0)
    ensures x.Some? && (x.value.JStr? || x.value.JArr? || x.value.JObj?) ==> n == default
  {
    match x
    case None => default
    case Some(j) =>
      match j
      case JNull => default
      case JNum(v) => RoundHalfEven(v)
      case JBool(b) => if b then 1 else 0
      case _ => default
  }

  /** What the loop computes for one feature. */
  datatype Assessment = Assessment(totalPop: int, popWithin15: int, popWithout15: int, pctWithout15: real,
                                   isUnderserved: bool, isUnderservedThreshold: bool)

  /** The guardrails, the percentage and the two flags. */
  function Assess(totalRaw: int, withinRaw: int, threshold: Option<real>): (a: Assessment)
    ensures a.totalPop == (if totalRaw < 0 then 0 else totalRaw)
    ensures 0 <= a.popWithin15 <= a.totalPop
    ensures 0 <= withinRaw <= a.totalPop ==> a.popWithin15 == withinRaw
    ensures withinRaw < 0 ==> a.popWithin15 == 0
    ensures withinRaw > a.totalPop ==> a.popWithin15 == a.totalPop
    ensures a.popWithout15 + a.popWithin15 == a.totalPop && 0 <= a.popWithout15
    ensures 0.0 <= a.pctWithout15 <= 100.0
    ensures a.totalPop == 0 ==> a.pctWithout15 == 0.0
    ensures a.totalPop > 0 ==> a.pctWithout15 * a.totalPop as real == 100.0 * a.popWithout15 as real
    ensures a.isUnderserved <==> a.totalPop > 0 && a.popWithin15 == 0
    ensures a.isUnderservedThreshold <==> threshold.Some? && a.totalPop > 0 && a.pctWithout15 >= threshold.value
  {
    var total := if totalRaw < 0 then 0 else totalRaw;
    var within0 := if withinRaw < 0 then 0 else withinRaw;
    var within := if within0 > total then total else within0;
    var without := total - within;
    var pct := if total == 0 then 0.0 else 100.0 * without as real / total as real;
    assert 0.0 <= pct <= 100.0 by {
      if total != 0 {
        QuotientBounds(100.0 * without as real, total as real, 0.0, 100.0);
      }
    }
    Assessment(total, within, without, pct,
               total > 0 && within == 0,
               threshold.Some? && total > 0 && pct >= threshold.value)
  }

  /** With a threshold of at most 100 %, every strictly underserved feature is
      threshold-flagged too; a feature without population is never flagged. */
  lemma {:induction false} StrictImpliesThreshold(totalRaw: int, withinRaw: int, threshold: Option<real>)
    ensures var a := Assess(totalRaw, withinRaw, threshold);
      && (threshold.Some? && threshold.value <= 100.0 && a.isUnderserved ==> a.isUnderservedThreshold)
      && (a.totalPop == 0 ==> !a.isUnderserved && !a.isUnderservedThreshold)
  {
    var a := Assess(totalRaw, withinRaw, threshold);
    if a.isUnderserved {
      assert a.popWithout15 == a.totalPop;
      assert a.pctWithout15 * a.totalPop as real == 100.0 * a.totalPop as real;
      CancelFactor(a.pctWithout15, 100.0, a.totalPop as real);
    }
  }

  /** `round(x, 2)` on an exact value. */
  function Round2(x: real): (r: real)
    ensures x - 0.005 <= r <= x + 0.005
  {
    RoundHalfEven(x * 100.0) as real / 100.0
  }

  /** The field names detected in the first feature. */
  datatype FieldKeys = FieldKeys(totalPopKey: string, popWithin15Key: string, nameKey: Option<string>)

  /** A feature the script can read: an object whose `properties`, when
      present, is an object. */
  predicate WellFormedFeature(feat: Json) {
    feat.JObj? && ("properties" in feat.fields ==> feat.fields["properties"].JObj?)
  }

  /** `feat.get("properties", {})`. */
  function PropertiesOf(feat: Json): (props: map<string, Json>)
    requires WellFormedFeature(feat)
    ensures "properties" !in feat.fields ==> props == map[]
    ensures "properties" in feat.fields ==> props == feat.fields["properties"].fields
  {
    if "properties" in feat.fields then feat.fields["properties"].fields else map[]
  }

  /** The detection step: the population keys must both be found in the
      first feature's properties. */
  function DetectFields(first: Json): (r: Result<FieldKeys>)
    requires WellFormedFeature(first)
    ensures r.Err? <==> FirstKey(PropertiesOf(first), TOTAL_POP_KEYS).None? || FirstKey(PropertiesOf(first), POP15_KEYS).None?
    ensures r.Err? ==> r.error == UndetectedFields && ExceptionOf(r.error) == ValueError
    ensures r.Ok? ==> r.value.totalPopKey in PropertiesOf(first) && r.value.totalPopKey in TOTAL_POP_KEYS
    ensures r.Ok? ==> r.value.popWithin15Key in PropertiesOf(first) && r.value.popWithin15Key in POP15_KEYS
  {
    var sample := PropertiesOf(first);
    var totalKey := FirstKey(sample, TOTAL_POP_KEYS);
    var withinKey := FirstKey(sample, POP15_KEYS);
    var nameKey := FirstKey(sample, NAME_KEYS);
    if totalKey.None? || withinKey.None? then Err(UndetectedFields)
    else Ok(FieldKeys(totalKey.value, withinKey.value, nameKey))
  }

  /** The assessment of one properties object. */
  function AssessProps(props: map<string, Json>, keys: FieldKeys, threshold: Option<real>): Assessment {
    Assess(ToInt(Lookup(props, keys.totalPopKey), 0), ToInt(Lookup(props, keys.popWithin15Key), 0), threshold)
  }

  /** The properties after the writes of one iteration: only the five
      computed keys are written, plus `label` when it is absent (taken from
      the detected name key, or null); every other property keeps its value. */
  function FlaggedProps(props: map<string, Json>, keys: FieldKeys, threshold: Option<real>): (out: map<string, Json>)
    ensures out.Keys == props.Keys + COMPUTED_KEYS + {LABEL_KEY}
    ensures forall k :: k in props && k !in COMPUTED_KEYS ==> out[k] == props[k]
    ensures var a := AssessProps(props, keys, threshold);
      && out[STRICT_KEY] == JBool(a.isUnderserved)
      && out[THRESHOLD_FLAG_KEY] == JBool(a.isUnderservedThreshold)
      && out[POP_WITHOUT_KEY] == JNum(a.popWithout15 as real)
      && out[PCT_WITHOUT_KEY] == JNum(Round2(a.pctWithout15))
      && out[THRESHOLD_PCT_KEY] == (if threshold.Some? then JNum(threshold.value) else JNull)
    ensures LABEL_KEY !in props && (keys.nameKey.Some? ==> keys.nameKey.value !in COMPUTED_KEYS) ==>
      out[LABEL_KEY] == (match keys.nameKey
                         case None => JNull
                         case Some(k) => if k in props then props[k] else JNull)
  {
    var a := AssessProps(props, keys, threshold);
    var written := props[POP_WITHOUT_KEY := JNum(a.popWithout15 as real)]
                        [PCT_WITHOUT_KEY := JNum(Round2(a.pctWithout15))]
                        [STRICT_KEY := JBool(a.isUnderserved)]
                        [THRESHOLD_FLAG_KEY := JBool(a.isUnderservedThreshold)]
                        [THRESHOLD_PCT_KEY := match threshold case None => JNull case Some(t) => JNum(t)];
    if LABEL_KEY in written then written
    else written[LABEL_KEY := match keys.nameKey
                              case None => JNull
                              case Some(k) => match Lookup(written, k) case None => JNull case Some(v) => v]
  }

  /** One feature after its iteration: its properties object replaced by the
      written one; a feature without properties wrote into a fresh dict and
      is left as it was. */
  function FlaggedFeature(feat: Json, keys: FieldKeys, threshold: Option<real>): (out: Json)
    requires WellFormedFeature(feat)
    ensures WellFormedFeature(out)
    ensures "properties" !in feat.fields ==> out == feat
  {
    if "properties" in feat.fields
    then JObj(feat.fields["properties" := JObj(FlaggedProps(feat.fields["properties"].fields, keys, threshold))])
    else feat
  }

  predicate IsStrict(feat: Json, keys: FieldKeys, threshold: Option<real>)
    requires WellFormedFeature(feat)
  {
    AssessProps(PropertiesOf(feat), keys, threshold).isUnderserved
  }

  predicate IsThreshold(feat: Json, keys: FieldKeys, threshold: Option<real>)
    requires WellFormedFeature(feat)
  {
    AssessProps(PropertiesOf(feat), keys, threshold).isUnderservedThreshold
  }

  /** How many features satisfy a flag. */
  function CountFlagged(fs: seq<Json>, keys: FieldKeys, threshold: Option<real>, strict: bool): (n: nat)
    requires forall i :: 0 <= i < |fs| ==> WellFormedFeature(fs[i])
    ensures n <= |fs|
  {
    if fs == [] then 0
    else
      var last := fs[|fs| - 1];
      var hit := if strict then IsStrict(last, keys, threshold) else IsThreshold(last, keys, threshold);
      CountFlagged(fs[..|fs| - 1], keys, threshold, strict) + (if hit then 1 else 0)
  }

  /** Counting one more feature of a prefix adds its flag. */
  lemma CountFlaggedStep(fs: seq<Json>, i: nat, keys: FieldKeys, threshold: Option<real>)
    requires i < |fs| && forall k :: 0 <= k < |fs| ==> WellFormedFeature(fs[k])
    ensures CountFlagged(fs[..i + 1], keys, threshold, true)
         == CountFlagged(fs[..i], keys, threshold, true) + (if IsStrict(fs[i], keys, threshold) then 1 else 0)
    ensures CountFlagged(fs[..i + 1], keys, threshold, false)
         == CountFlagged(fs[..i], keys, threshold, false) + (if IsThreshold(fs[i], keys, threshold) then 1 else 0)
  {
    var p := fs[..i + 1];
    assert p[..|p| - 1] == fs[..i] && p[|p| - 1] == fs[i];
  }

  /** With a threshold of at most 100 %, the threshold count is at least the strict count. */
  lemma {:induction false} StrictCountAtMostThresholdCount(fs: seq<Json>, keys: FieldKeys, threshold: Option<real>)
    requires forall i :: 0 <= i < |fs| ==> WellFormedFeature(fs[i])
    requires threshold.Some? && threshold.value <= 100.0
    ensures CountFlagged(fs, keys, threshold, true) <= CountFlagged(fs, keys, threshold, false)
  {
    if fs != [] {
      var last := fs[|fs| - 1];
      var props := PropertiesOf(last);
      StrictImpliesThreshold(ToInt(Lookup(props, keys.totalPopKey), 0), ToInt(Lookup(props, keys.popWithin15Key), 0), threshold);
      StrictCountAtMostThresholdCount(fs[..|fs| - 1], keys, threshold);
    }
  }

  /** The body of the loop: assess one feature, write the fields into its
      properties (a fresh dict when it has none) and report its two flags. */
  method FlagOne(feat: Json, keys: FieldKeys, threshold: Option<real>)
    returns (out: Json, strict: bool, overThreshold: bool)
    requires WellFormedFeature(feat)
    ensures out == FlaggedFeature(feat, keys, threshold)
    ensures strict == IsStrict(feat, keys, threshold) && overThreshold == IsThreshold(feat, keys, threshold)
  {
    var props := PropertiesOf(feat);
    var a := AssessProps(props, keys, threshold);
    out := feat;
    if "properties" in feat.fields {
      out := JObj(feat.fields["properties" := JObj(FlaggedProps(props, keys, threshold))]);
    }
    strict, overThreshold := a.isUnderserved, a.isUnderservedThreshold;
  }

  /** The features after the first `i` iterations of the loop. */
  ghost function FlaggedUpTo(fs: seq<Json>, i: nat, keys: FieldKeys, threshold: Option<real>): (r: seq<Json>)
    requires i <= |fs| && forall k :: 0 <= k < |fs| ==> WellFormedFeature(fs[k])
    ensures |r| == |fs|
  {
    seq(|fs|, k requires 0 <= k < |fs| => if k < i then FlaggedFeature(fs[k], keys, threshold) else fs[k])
  }

  lemma FlaggedUpToStep(fs: seq<Json>, i: nat, keys: FieldKeys, threshold: Option<real>)
    requires i < |fs| && forall k :: 0 <= k < |fs| ==> WellFormedFeature(fs[k])
    ensures FlaggedUpTo(fs, i, keys, threshold)[i := FlaggedFeature(fs[i], keys, threshold)]
         == FlaggedUpTo(fs, i + 1, keys, threshold)
    ensures FlaggedUpTo(fs, i, keys, threshold)[i] == fs[i]
  {
  }

  /** The loaded GeoJSON's features, in place: the loop of `main` rewrites
      the properties of each feature and counts the flags. */
  class FeatureCollection {
    var features: array<Json>

    constructor (fs: seq<Json>)
      ensures fresh(features) && features[..] == fs
    {
      features := new Json[|fs|](i requires 0 <= i < |fs| => fs[i]);
    }

    predicate Valid()
      reads this, features
    {
      forall i :: 0 <= i < features.Length ==> WellFormedFeature(features[i])
    }

    method FlagAll(keys: FieldKeys, threshold: Option<real>) returns (strictCount: nat, thresholdCount: nat)
      requires Valid()
      modifies features
      ensures Valid()
      ensures forall i :: 0 <= i < features.Length ==> features[i] == FlaggedFeature(old(features[i]), keys, threshold)
      ensures strictCount == CountFlagged(old(features[..]), keys, threshold, true)
      ensures thresholdCount == CountFlagged(old(features[..]), keys, threshold, false)
    {
      ghost var orig := features[..];
      strictCount, thresholdCount := 0, 0;
      var i := 0;
      while i < features.Length
        invariant 0 <= i <= features.Length && |orig| == features.Length
        invariant forall k :: 0 <= k < |orig| ==> WellFormedFeature(orig[k])
        invariant features[..] == FlaggedUpTo(orig, i, keys, threshold)
        invariant strictCount == CountFlagged(orig[..i], keys, threshold, true)
        invariant thresholdCount == CountFlagged(orig[..i], keys, threshold, false)
      {
        CountFlaggedStep(orig, i, keys, threshold);
        FlaggedUpToStep(orig, i, keys, threshold);
        assert features[i] == orig[i] by { assert features[..][i] == features[i]; }
        var flagged, strict, overThreshold := FlagOne(features[i], keys, threshold);
        ghost var before := features[..];
        features[i] := flagged;
        assert features[..] == before[i := flagged];
        strictCount := strictCount + (if strict then 1 else 0);
        thresholdCount := thresholdCount + (if overThreshold then 1 else 0);
        i := i + 1;
      }
      assert forall k :: 0 <= k < features.Length ==> features[k] == FlaggedUpTo(orig, i, keys, threshold)[k];
      assert orig[..i] == orig;
    }
  }

  /** The result of a run: the rewritten features and the two counters. */
  datatype FlagReport = FlagReport(features: seq<Json>, keys: FieldKeys, strictCount: nat, thresholdCount: nat)

  /** A loaded document the script can read: every feature is well formed. */
  predicate ReadableDocument(gjson: map<string, Json>) {
    "features" in gjson && gjson["features"].JArr? ==>
      forall i :: 0 <= i < |gjson["features"].items| ==> WellFormedFeature(gjson["features"].items[i])
  }

  /** The document holds a non-empty `features` list. */
  predicate HasFeatureList(gjson: map<string, Json>) {
    "features" in gjson && gjson["features"].JArr? && gjson["features"].items != []
  }

  /** `main` after loading: a missing, non-list or empty `features` is a
      ValueError, so is an undetectable population key; otherwise every
      feature is flagged. */
  method Run(gjson: map<string, Json>, threshold: Option<real>) returns (r: Result<FlagReport>)
    requires ReadableDocument(gjson)
    ensures r.Err? && r.error == NotAFeatureCollection <==> !HasFeatureList(gjson)
    ensures r.Ok? <==> HasFeatureList(gjson) && DetectFields(gjson["features"].items[0]).Ok?
    ensures r.Err? ==> ExceptionOf(r.error) == ValueError
    ensures r.Ok? ==> var fs := gjson["features"].items;
      && fs != []
      && DetectFields(fs[0]) == Ok(r.value.keys)
      && |r.value.features| == |fs|
      && (forall i :: 0 <= i < |fs| ==> r.value.features[i] == FlaggedFeature(fs[i], r.value.keys, threshold))
      && r.value.strictCount == CountFlagged(fs, r.value.keys, threshold, true)
      && r.value.thresholdCount == CountFlagged(fs, r.value.keys, threshold, false)
  {
    if !HasFeatureList(gjson) {
      return Err(NotAFeatureCollection);
    }
    var fs := gjson["features"].items;
    var detected := DetectFields(fs[0]);
    if detected.Err? {
      return Err(detected.error);
    }
    var report := FlagFeatures(fs, detected.value, threshold);
    return Ok(report);
  }

  /** The loop of `main` over the loaded features, with the detected keys. */
  method FlagFeatures(fs: seq<Json>, keys: FieldKeys, threshold: Option<real>) returns (report: FlagReport)
    requires forall i :: 0 <= i < |fs| ==> WellFormedFeature(fs[i])
    ensures report.keys == keys && |report.features| == |fs|
    ensures forall i :: 0 <= i < |fs| ==> report.features[i] == FlaggedFeature(fs[i], keys, threshold)
    ensures report.strictCount == CountFlagged(fs, keys, threshold, true)
    ensures report.thresholdCount == CountFlagged(fs, keys, threshold, false)
  {
    var fc := new FeatureCollection(fs);
    var strictCount, thresholdCount := fc.FlagAll(keys, threshold);
    report := FlagReport(fc.features[..], keys, strictCount, thresholdCount);
  }
}
