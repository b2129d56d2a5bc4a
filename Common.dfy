/** Shared vocabulary of the park-accessibility pipeline: optional values,
    results that carry the exception a script would raise, JSON property
    values, and the exact-arithmetic stand-ins for Python's numeric helpers. */
module Common {

  datatype Option<+T> = None | Some(value: T)

  datatype Result<+T> = Ok(value: T) | Err(error: Error)

  /** The Python exception classes the scripts raise. */
  datatype PyException =
    | RuntimeError
    | KeyError
    | ValueError
    | FileNotFoundError
    | TypeError
    | AttributeError

  /** Every way a stage of the pipeline can abort. */
  datatype Error =
    | NoParks                         // empty parks table
    | NoIsochronesBuilt               // every park was skipped
    | NoReachableNodes                // single-park driver: empty reachable set
    | InvalidParkGeometry             // single-park driver: centroid of a missing/empty geometry
    | NearestNodeFailed               // node lookup raised
    | PolygonBuildFailed              // hull construction raised
    | MissingColumns(names: seq<string>)
    | MissingCrs                      // a layer without a coordinate reference system
    | EmptyJoin                       // spatial join matched nothing
    | EmptyClip                       // clipping left no rows
    | NoShapefile
    | MultipleShapefiles
    | NotAFeatureCollection           // no non-empty "features" list
    | UndetectedFields                // population keys not found in the first feature
    | MissingProperties               // a feature without a "properties" object
    | IncomparableScore               // a score that cannot be compared with a number
    | FeaturesNotAList                // a "features" value that cannot be counted and scanned
    | FeatureNotAnObject              // a feature that cannot be indexed by "properties"
    | PropertiesNotAnObject           // a "properties" value without `.get`

  /** The exception class behind each error. */
  function ExceptionOf(e: Error): (x: PyException)
    ensures e.MissingColumns? ==> x == KeyError
    ensures e.NoParks? || e.NoIsochronesBuilt? || e.NoReachableNodes? || e.MultipleShapefiles? ==> x == RuntimeError
  {
    match e
    case NoParks => RuntimeError
    case NoIsochronesBuilt => RuntimeError
    case NoReachableNodes => RuntimeError
    case InvalidParkGeometry => AttributeError
    case NearestNodeFailed => ValueError
    case PolygonBuildFailed => ValueError
    case MissingColumns(_) => KeyError
    case MissingCrs => ValueError
    case EmptyJoin => ValueError
    case EmptyClip => ValueError
    case NoShapefile => FileNotFoundError
    case MultipleShapefiles => RuntimeError
    case NotAFeatureCollection => ValueError
    case UndetectedFields => ValueError
    case MissingProperties => KeyError
    case IncomparableScore => TypeError
    case FeaturesNotAList => TypeError
    case FeatureNotAnObject => TypeError
    case PropertiesNotAnObject => AttributeError
  }

  /** A JSON value as `json.load` produces it. */
  datatype Json =
    | JNull
    | JBool(b: bool)
    | JNum(x: real)
    | JStr(s: string)
    | JArr(items: seq<Json>)
    | JObj(fields: map<string, Json>)

  /** Python truthiness of a loaded JSON value. */
  predicate Truthy(j: Json) {
    match j
    case JNull => false
    case JBool(b) => b
    case JNum(x) => x != 0.0
    case JStr(s) => s != ""
    case JArr(items) => items != []
    case JObj(fields) => fields != map[]
  }

  /** `dict.get(key)`: the value under `key`, or None when absent. */
  function Lookup(props: map<string, Json>, key: string): (r: Option<Json>)
    ensures r.Some? <==> key in props
    ensures r.Some? ==> r.value == props[key]
  {
    if key in props then Some(props[key]) else None
  }

  /** Python's `round(x)` on an exact value: the nearest integer, ties to even. */
  function RoundHalfEven(x: real): (k: int)
    ensures x - 0.5 <= k as real <= x + 0.5
    ensures (k as real - x == 0.5 || x - k as real == 0.5) ==> k % 2 == 0
  {
    var f := x.Floor;
    var d := x - f as real;
    if d < 0.5 then f
    else if d > 0.5 then f + 1
    else if f % 2 == 0 then f else f + 1
  }

  /** Rounding never leaves an integer interval that holds the value. */
  lemma RoundWithin(x: real, lo: int, hi: int)
    requires lo as real <= x <= hi as real
    ensures lo <= RoundHalfEven(x) <= hi
  {
    var k := RoundHalfEven(x);
    assert k as real <= hi as real + 0.5;
    assert lo as real - 0.5 <= k as real;
  }

  /** Multiplying by a positive factor keeps an ordering, in both directions. */
  lemma ScaleMonotone(x: real, y: real, t: real)
    requires t > 0.0
    ensures x * t <= y * t <==> x <= y
  {
    assert y * t - x * t == (y - x) * t;
    if x <= y {
      assert (y - x) * t >= 0.0;
    } else {
      assert (x - y) * t > 0.0;
    }
  }

  /** Multiplying by a non-negative factor keeps an ordering. */
  lemma ScaleLe(x: real, y: real, t: real)
    requires t >= 0.0 && x <= y
    ensures x * t <= y * t
  {
    if t > 0.0 {
      ScaleMonotone(x, y, t);
    }
  }

  /** A non-zero factor cancels from both sides of an equation. */
  lemma CancelFactor(x: real, y: real, t: real)
    requires t != 0.0 && x * t == y * t
    ensures x == y
  {
    if t > 0.0 {
      ScaleMonotone(x, y, t);
      ScaleMonotone(y, x, t);
    } else {
      assert x * (-t) == y * (-t);
      ScaleMonotone(x, y, -t);
      ScaleMonotone(y, x, -t);
    }
  }

  /** Multiplying by a non-zero quantity and dividing by it again gives back the value. */
  lemma DivCancel(x: real, p: real)
    requires p != 0.0
    ensures x * p / p == x
  {
    var q := x * p / p;
    assert q * p == x * p;
    CancelFactor(q, x, p);
  }

  /** A quotient by a positive quantity keeps the bounds of the dividend, scaled. */
  lemma QuotientBounds(d: real, w: real, lo: real, hi: real)
    requires w > 0.0 && lo * w <= d <= hi * w
    ensures lo <= d / w <= hi
  {
    var q := d / w;
    assert q * w == d;
    ScaleMonotone(lo, q, w);
    ScaleMonotone(q, hi, w);
  }

  /** The least integer not below `x`. */
  function Ceil(x: real): (c: int)
    ensures x <= c as real < x + 1.0
  {
    -((-x).Floor)
  }

  function DigitChar(d: int): char
    requires 0 <= d < 10
  {
    "0123456789"[d]
  }

  /** Decimal text of a natural number, as `str(n)` prints it. */
  function NatText(n: nat): (s: string)
    ensures |s| > 0
    ensures forall i :: 0 <= i < |s| ==> '0' <= s[i] <= '9'
    decreases n
  {
    if n < 10 then [DigitChar(n)] else NatText(n / 10) + [DigitChar(n % 10)]
  }

  /** Decimal text of an integer, as `str(i)` prints it. */
  function IntText(i: int): (s: string)
    ensures |s| > 0
    ensures (s[0] == '-') <==> i < 0
  {
    if i < 0 then "-" + NatText(-i) else NatText(i)
  }

  /** Python's `str.isspace` for one character (ASCII and the Unicode spaces). */
  predicate IsSpace(c: char) {
    c == ' ' || c == '\t' || c == '\n' || c == '\r' || c == '\U{000B}' || c == '\U{000C}'
    || ('\U{001C}' <= c <= '\U{001F}') || c == '\U{0085}' || c == '\U{00A0}' || c == '\U{1680}'
    || ('\U{2000}' <= c <= '\U{200A}') || c == '\U{2028}' || c == '\U{2029}' || c == '\U{202F}'
    || c == '\U{205F}' || c == '\U{3000}'
  }

  /** How many elements of `s` satisfy `p` (the counters of the scripts). */
  function CountWhere<T>(s: seq<T>, p: T -> bool): (n: nat)
    ensures n <= |s|
  {
    if s == [] then 0 else CountWhere(s[..|s| - 1], p) + (if p(s[|s| - 1]) then 1 else 0)
  }

  /** Counting from the front agrees with counting from the back. */
  lemma {:induction false} CountWhereCons<T>(x: T, s: seq<T>, p: T -> bool)
    ensures CountWhere([x] + s, p) == (if p(x) then 1 else 0) + CountWhere(s, p)
    decreases |s|
  {
    if s != [] {
      var xs := [x] + s;
      assert xs[..|xs| - 1] == [x] + s[..|s| - 1];
      assert xs[|xs| - 1] == s[|s| - 1];
      CountWhereCons(x, s[..|s| - 1], p);
    } else {
      assert ([x] + s)[..0] == [];
    }
  }
}
