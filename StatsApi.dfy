/** The summary endpoint of the web API (api/index.py, `get_stats`): how
    many neighbourhoods the flagged layer holds, how many of them are
    underserved, and that share as a percentage with one decimal. Reading
    the file is left to the caller: the handler starts from the loaded
    document. */
module StatsApi {
  import opened Common

  const UNDERSERVED_KEY: string := "is_underserved"

  /** The response body. */
  datatype Stats = Stats(totalNeighborhoods: nat, underservedCount: nat, underservedPercentage: real)

  /** A feature the count can read: an object whose `properties` is an object. */
  predicate Readable(f: Json) {
    f.JObj? && "properties" in f.fields && f.fields["properties"].JObj?
  }

  /** Whether the count adds one for a feature: it is readable and its
      `is_underserved` value is truthy (a missing one is None, so falsy). */
  predicate Flagged(f: Json) {
    Readable(f) && UNDERSERVED_KEY in f.fields["properties"].fields
    && Truthy(f.fields["properties"].fields[UNDERSERVED_KEY])
  }

  /** `f["properties"].get("is_underserved")` read as a truth value, with the
      exception each kind of unreadable feature raises. */
  function IsUnderserved(f: Json): (r: Result<bool>)
    ensures r.Ok? <==> Readable(f)
    ensures r.Ok? ==> (r.value <==> Flagged(f))
    ensures f.JObj? && "properties" !in f.fields ==> r == Err(MissingProperties) && ExceptionOf(r.error) == KeyError
  {
    if !f.JObj? then Err(FeatureNotAnObject)
    else if "properties" !in f.fields then Err(MissingProperties)
    else match f.fields["properties"]
      case JObj(props) =>
        (match Lookup(props, UNDERSERVED_KEY)
         case None => Ok(false)
         case Some(v) => Ok(Truthy(v)))
      case _ => Err(PropertiesNotAnObject)
  }

  /** The generator sum, scanning the features in order: the first
      unreadable feature raises. */
  function UnderservedCount(features: seq<Json>): (r: Result<nat>)
    ensures r.Ok? ==> r.value <= |features|
  {
    if features == [] then Ok(0)
    else match IsUnderserved(features[0])
      case Err(e) => Err(e)
      case Ok(b) =>
        match UnderservedCount(features[1..])
        case Err(e) => Err(e)
        case Ok(n) => Ok(n + if b then 1 else 0)
  }

  /** The sum succeeds exactly when every feature is readable, and then it
      is the number of flagged features; otherwise it raises the error of
      the first unreadable one. */
  lemma {:induction false} UnderservedCountIsCount(features: seq<Json>)
    ensures UnderservedCount(features).Ok? <==> forall i :: 0 <= i < |features| ==> Readable(features[i])
    ensures UnderservedCount(features).Ok? ==> UnderservedCount(features).value == CountWhere(features, Flagged)
    ensures forall k :: 0 <= k < |features| && !Readable(features[k])
                        && (forall i :: 0 <= i < k ==> Readable(features[i])) ==>
      UnderservedCount(features) == Err(IsUnderserved(features[k]).error)
    decreases |features|
  {
    if features != [] {
      UnderservedCountIsCount(features[1..]);
      assert features == [features[0]] + features[1..];
      CountWhereCons(features[0], features[1..], Flagged);
      assert forall i :: 1 <= i < |features| ==> features[i] == features[1..][i - 1];
    }
  }

  /** `round((underserved / total) * 100, 1) if total > 0 else 0`. */
  function Percentage(count: nat, total: nat): (p: real)
    ensures total == 0 ==> p == 0.0
  {
    if total > 0 then RoundHalfEven((count as real / total as real) * 100.0 * 10.0) as real / 10.0 else 0.0
  }

  /** The percentage lies in 0..100 whenever the count does not exceed the
      total, and it is within 0.05 of the exact share. */
  lemma {:induction false} PercentageBounds(count: nat, total: nat)
    requires count <= total
    ensures 0.0 <= Percentage(count, total) <= 100.0
    ensures total > 0 ==>
      var exact := (count as real / total as real) * 100.0;
      exact - 0.05 <= Percentage(count, total) <= exact + 0.05
  {
    if total > 0 {
      var q := count as real / total as real;
      QuotientBounds(count as real, total as real, 0.0, 1.0);
      RoundWithin(q * 100.0 * 10.0, 0, 1000);
    }
  }

  /** `data.get("features", [])` as something `len` and the generator can
      walk: a list; an empty string or empty object walks as nothing; any
      other value raises TypeError. */
  function FeatureList(data: map<string, Json>): (r: Result<seq<Json>>)
    ensures "features" !in data ==> r == Ok([])
    ensures "features" in data && data["features"].JArr? ==> r == Ok(data["features"].items)
    ensures r.Err? ==> r.error == FeaturesNotAList && ExceptionOf(r.error) == TypeError
  {
    if "features" !in data then Ok([])
    else match data["features"]
      case JArr(items) => Ok(items)
      case JStr(s) => if s == "" then Ok([]) else Err(FeaturesNotAList)
      case JObj(m) => if m == map[] then Ok([]) else Err(FeaturesNotAList)
      case _ => Err(FeaturesNotAList)
  }

  /** `get_stats` after the file is loaded. */
  function GetStats(data: map<string, Json>): (r: Result<Stats>)
    ensures FeatureList(data).Err? ==> r == Err(FeatureList(data).error)
    ensures FeatureList(data).Ok? ==>
      (r.Ok? <==> forall i :: 0 <= i < |FeatureList(data).value| ==> Readable(FeatureList(data).value[i]))
    ensures r.Ok? ==> FeatureList(data).Ok? && r.value.totalNeighborhoods == |FeatureList(data).value|
    ensures r.Ok? ==> r.value.underservedCount == CountWhere(FeatureList(data).value, Flagged)
    ensures r.Ok? ==> r.value.underservedCount <= r.value.totalNeighborhoods
    ensures r.Ok? ==> (r.value.totalNeighborhoods == 0 ==> r.value.underservedPercentage == 0.0)
    ensures r.Ok? ==> 0.0 <= r.value.underservedPercentage <= 100.0
    ensures r.Ok? ==> r.value.underservedPercentage == Percentage(r.value.underservedCount, r.value.totalNeighborhoods)
    ensures r.Ok? && r.value.totalNeighborhoods > 0 ==>
      var exact := (r.value.underservedCount as real / r.value.totalNeighborhoods as real) * 100.0;
      exact - 0.05 <= r.value.underservedPercentage <= exact + 0.05
  {
    match FeatureList(data)
    case Err(e) => Err(e)
    case Ok(features) =>
      UnderservedCountIsCount(features);
      match UnderservedCount(features)
      case Err(e) => Err(e)
      case Ok(n) =>
        PercentageBounds(n, |features|);
        Ok(Stats(|features|, n, Percentage(n, |features|)))
  }

  /** For a document whose features are all readable: the total is the
      number of features (0 without a `features` key), the count is the
      number of flagged ones and never exceeds the total, and the
      percentage is the one-decimal rounding of the share: 0 for no
      features, otherwise in 0..100 and within 0.05 of 100 · count / total. */
  lemma StatsOfReadableDocument(data: map<string, Json>)
    requires FeatureList(data).Ok?
    requires forall i :: 0 <= i < |FeatureList(data).value| ==> Readable(FeatureList(data).value[i])
    ensures var features := FeatureList(data).value;
      var r := GetStats(data);
      && r.Ok?
      && r.value.totalNeighborhoods == |features|
      && ("features" !in data ==> r.value.totalNeighborhoods == 0 && r.value.underservedPercentage == 0.0)
      && r.value.underservedCount == CountWhere(features, Flagged)
      && r.value.underservedCount <= r.value.totalNeighborhoods
      && 0.0 <= r.value.underservedPercentage <= 100.0
      && r.value.underservedPercentage == Percentage(r.value.underservedCount, |features|)
      && (|features| > 0 ==>
            var exact := (r.value.underservedCount as real / |features| as real) * 100.0;
            exact - 0.05 <= r.value.underservedPercentage <= exact + 0.05)
  {
    var features := FeatureList(data).value;
    UnderservedCountIsCount(features);
    PercentageBounds(UnderservedCount(features).value, |features|);
  }
}
