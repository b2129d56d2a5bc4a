/** Neighbourhood preparation (analysis/05_prepare_neighborhoods.py): align
    the neighbourhood layer's CRS with the city boundary, clip it, derive a
    canonical `neighborhood_name` column and keep only that column and the
    geometry. Clipping is a geometry call whose result arrives as data. */
module PrepareNeighborhoods {
  import opened Common
  import opened Frames

  const RAW_NAME_COLUMN: string := "Neighborho"
  const STANDARDIZED_NAME_COLUMN: string := "neighborhood_name"
  const GEOMETRY_COLUMN: string := "geometry"

  // ---------------------------------------------------------------------
  // CRS alignment
  // ---------------------------------------------------------------------

  /** What `align_crs` does to the neighbourhood layer. */
  datatype CrsStep = Unchanged | Tagged | Reprojected

  /** The step taken and the CRS of both layers afterwards (a CRS is named
      by its text; None for a layer without one). */
  datatype Alignment = Alignment(step: CrsStep, neighborhoodsCrs: Option<string>, boundaryCrs: Option<string>)

  /** `align_crs`, as its decision table. */
  function AlignCrs(neighborhoodsCrs: Option<string>, boundaryCrs: Option<string>): (a: Alignment)
    ensures a.boundaryCrs == boundaryCrs
    ensures boundaryCrs.Some? ==> a.neighborhoodsCrs == boundaryCrs
    ensures boundaryCrs.None? ==> a.step == Unchanged && a.neighborhoodsCrs == neighborhoodsCrs
    ensures a.step == Tagged <==> neighborhoodsCrs.None? && boundaryCrs.Some?
    ensures a.step == Reprojected <==>
      neighborhoodsCrs.Some? && boundaryCrs.Some? && neighborhoodsCrs != boundaryCrs
    ensures a.step == Unchanged ==> a.neighborhoodsCrs == neighborhoodsCrs
  {
    if boundaryCrs.None? && neighborhoodsCrs.None? then Alignment(Unchanged, neighborhoodsCrs, boundaryCrs)
    else if boundaryCrs.None? then Alignment(Unchanged, neighborhoodsCrs, boundaryCrs)
    else if neighborhoodsCrs.None? then Alignment(Tagged, boundaryCrs, boundaryCrs)
    else if neighborhoodsCrs != boundaryCrs then Alignment(Reprojected, boundaryCrs, boundaryCrs)
    else Alignment(Unchanged, neighborhoodsCrs, boundaryCrs)
  }

  /** Aligning twice does nothing the second time. */
  lemma AlignIsIdempotent(neighborhoodsCrs: Option<string>, boundaryCrs: Option<string>)
    ensures var a := AlignCrs(neighborhoodsCrs, boundaryCrs);
      var b := AlignCrs(a.neighborhoodsCrs, a.boundaryCrs);
      b.step == Unchanged && b.neighborhoodsCrs == a.neighborhoodsCrs && b.boundaryCrs == a.boundaryCrs
  {
  }

  /** The empty-result check of `clip_neighborhoods_to_boundary`. */
  function CheckClip(clipped: Frame): (r: Result<Frame>)
    ensures r.Err? <==> IsEmpty(clipped)
    ensures r.Err? ==> r.error == EmptyClip && ExceptionOf(r.error) == ValueError
    ensures r.Ok? ==> r.value == clipped
  {
    if IsEmpty(clipped) then Err(EmptyClip) else Ok(clipped)
  }

  // ---------------------------------------------------------------------
  // Name normalisation: strip, collapse whitespace runs, title case
  // ---------------------------------------------------------------------

  predicate IsUpper(c: char) { 'A' <= c <= 'Z' }
  predicate IsLower(c: char) { 'a' <= c <= 'z' }
  /** A letter that has an upper and a lower case. */
  predicate IsCased(c: char) { IsUpper(c) || IsLower(c) }

  function ToUpper(c: char): (u: char)
    ensures IsCased(u) <==> IsCased(c)
    ensures IsCased(c) ==> IsUpper(u)
    ensures !IsCased(c) ==> u == c
  {
    if IsLower(c) then (c as int - 32) as char else c
  }

  function ToLower(c: char): (l: char)
    ensures IsCased(l) <==> IsCased(c)
    ensures IsCased(c) ==> IsLower(l)
    ensures !IsCased(c) ==> l == c
  {
    if IsUpper(c) then (c as int + 32) as char else c
  }

  /** Upper- and lower-casing agree up to case. */
  lemma CaseRoundTrips(c: char)
    ensures ToUpper(ToUpper(c)) == ToUpper(c) && ToUpper(ToLower(c)) == ToUpper(c)
    ensures ToLower(ToLower(c)) == ToLower(c) && ToLower(ToUpper(c)) == ToLower(c)
  {
  }

  /** `str.strip()` of the leading end. */
  function StripLeading(s: string): (r: string)
    ensures |r| <= |s| && r == s[|s| - |r|..]
    ensures forall i :: 0 <= i < |s| - |r| ==> IsSpace(s[i])
    ensures r == [] || !IsSpace(r[0])
  {
    if s == [] || !IsSpace(s[0]) then s
    else
      var r := StripLeading(s[1..]);
      assert forall i :: 1 <= i < |s| - |r| ==> s[i] == s[1..][i - 1];
      r
  }

  /** `str.strip()` of the trailing end. */
  function StripTrailing(s: string): (r: string)
    ensures |r| <= |s| && r == s[..|r|]
    ensures forall i :: |r| <= i < |s| ==> IsSpace(s[i])
    ensures r == [] || !IsSpace(r[|r| - 1])
  {
    if s == [] || !IsSpace(s[|s| - 1]) then s
    else
      var r := StripTrailing(s[..|s| - 1]);
      assert forall i :: |r| <= i < |s| - 1 ==> s[i] == s[..|s| - 1][i];
      r
  }

  /** No whitespace at either end. */
  predicate Trimmed(s: string) {
    s == [] || (!IsSpace(s[0]) && !IsSpace(s[|s| - 1]))
  }

  /** `str.strip()`: whitespace removed from both ends, only there. */
  function Strip(s: string): (r: string)
    ensures Trimmed(r)
    ensures Trimmed(s) ==> r == s
    ensures r == [] <==> forall i :: 0 <= i < |s| ==> IsSpace(s[i])
  {
    var t := StripLeading(s);
    var r := StripTrailing(t);
    if r == [] then
      assert t == [];
      r
    else
      assert r[0] == t[0] && !IsSpace(r[0]);
      assert !IsSpace(s[|s| - |t|]);
      r
  }

  /** Every whitespace character is a plain space and no two spaces are
      adjacent. */
  predicate SingleSpaced(s: string) {
    && (forall i :: 0 <= i < |s| && IsSpace(s[i]) ==> s[i] == ' ')
    && (forall i :: 0 <= i < |s| - 1 ==> !(s[i] == ' ' && s[i + 1] == ' '))
  }

  /** `re.sub(r"\s+", " ", s)`: every run of whitespace becomes one space. */
  function Collapse(s: string): (r: string)
    ensures r == [] <==> s == []
    ensures s != [] ==> r[0] == (if IsSpace(s[0]) then ' ' else s[0])
    decreases |s|
  {
    if s == [] then []
    else if IsSpace(s[0]) then [' '] + Collapse(StripLeading(s[1..]))
    else [s[0]] + Collapse(s[1..])
  }

  /** The collapsed text is single-spaced. */
  lemma {:induction false} CollapseIsSingleSpaced(s: string)
    ensures SingleSpaced(Collapse(s))
    decreases |s|
  {
    if s != [] {
      var t := if IsSpace(s[0]) then StripLeading(s[1..]) else s[1..];
      CollapseIsSingleSpaced(t);
      var r := Collapse(s);
      assert r[1..] == Collapse(t);
      forall i | 0 <= i < |r| - 1
        ensures !(r[i] == ' ' && r[i + 1] == ' ')
      {
        if i > 0 {
          assert r[i] == Collapse(t)[i - 1] && r[i + 1] == Collapse(t)[i];
        }
      }
    }
  }

  /** A run of whitespace becomes one space, a visible character stays: so
      the ends keep their visible characters. */
  lemma {:induction false} CollapseKeepsLast(s: string)
    requires s != [] && !IsSpace(s[|s| - 1])
    ensures Collapse(s)[|Collapse(s)| - 1] == s[|s| - 1]
    decreases |s|
  {
    if |s| > 1 {
      var u := s[1..];
      assert u[|u| - 1] == s[|s| - 1];
      if IsSpace(s[0]) {
        var t := StripLeading(u);
        StripLeadingKeepsLast(u);
        CollapseKeepsLast(t);
        assert Collapse(s) == [' '] + Collapse(t);
      } else {
        CollapseKeepsLast(u);
        assert Collapse(s) == [s[0]] + Collapse(u);
      }
    }
  }

  /** Stripping leading whitespace keeps a visible last character. */
  lemma StripLeadingKeepsLast(u: string)
    requires u != [] && !IsSpace(u[|u| - 1])
    ensures StripLeading(u) != [] && StripLeading(u)[|StripLeading(u)| - 1] == u[|u| - 1]
  {
    var t := StripLeading(u);
    assert t == u[|u| - |t|..];
  }

  /** Collapsing text that is already single-spaced changes nothing. */
  lemma {:induction false} CollapseIdentity(s: string)
    requires SingleSpaced(s)
    ensures Collapse(s) == s
    decreases |s|
  {
    if s != [] {
      assert SingleSpaced(s[1..]);
      if IsSpace(s[0]) {
        assert s[1..] == [] || !IsSpace(s[1..][0]);
        assert StripLeading(s[1..]) == s[1..];
      }
      CollapseIdentity(s[1..]);
    }
  }

  /** Whether position `i` starts a word for `str.title`: the first
      character, or one after an uncased character. */
  predicate WordStart(s: string, i: int, afterCased: bool)
    requires 0 <= i < |s|
  {
    if i == 0 then !afterCased else !IsCased(s[i - 1])
  }

  /** `str.title` scanning from a character that was (or was not) cased. */
  function TitleFrom(s: string, afterCased: bool): (r: string)
    ensures |r| == |s|
    ensures forall i :: 0 <= i < |s| ==>
      r[i] == (if WordStart(s, i, afterCased) then ToUpper(s[i]) else ToLower(s[i]))
  {
    if s == [] then []
    else
      var c := if afterCased then ToLower(s[0]) else ToUpper(s[0]);
      var rest := TitleFrom(s[1..], IsCased(s[0]));
      WordStartShift(s, afterCased);
      [c] + rest
  }

  /** Past the first character, word starts are those of the tail, scanned
      after the first character. */
  lemma WordStartShift(s: string, afterCased: bool)
    requires s != []
    ensures forall i :: 1 <= i < |s| ==> WordStart(s, i, afterCased) == WordStart(s[1..], i - 1, IsCased(s[0]))
  {
    forall i | 1 <= i < |s|
      ensures WordStart(s, i, afterCased) == WordStart(s[1..], i - 1, IsCased(s[0]))
    {
      assert s[1..][i - 1] == s[i];
      if i > 1 {
        assert s[1..][i - 2] == s[i - 1];
      }
    }
  }

  /** `str.title()`. */
  function Title(s: string): (r: string)
    ensures |r| == |s|
  {
    TitleFrom(s, false)
  }

  /** `str.title` case by case: a letter is upper-case exactly when it is
      first or follows an uncased character, every other letter is
      lower-case, and characters without case are kept. */
  lemma TitleCase(s: string)
    ensures var r := Title(s);
      forall i :: 0 <= i < |s| ==>
        && (IsCased(r[i]) <==> IsCased(s[i]))
        && (IsUpper(r[i]) <==> IsCased(s[i]) && (i == 0 || !IsCased(s[i - 1])))
        && (IsLower(r[i]) <==> IsCased(s[i]) && i > 0 && IsCased(s[i - 1]))
        && (!IsCased(s[i]) ==> r[i] == s[i])
        && ToLower(r[i]) == ToLower(s[i])
  {
    var r := Title(s);
    forall i | 0 <= i < |s|
      ensures IsCased(r[i]) <==> IsCased(s[i])
      ensures IsUpper(r[i]) <==> IsCased(s[i]) && (i == 0 || !IsCased(s[i - 1]))
      ensures IsLower(r[i]) <==> IsCased(s[i]) && i > 0 && IsCased(s[i - 1])
      ensures !IsCased(s[i]) ==> r[i] == s[i]
      ensures ToLower(r[i]) == ToLower(s[i])
    {
      CaseRoundTrips(s[i]);
      if WordStart(s, i, false) {
        assert r[i] == ToUpper(s[i]);
      } else {
        assert r[i] == ToLower(s[i]);
      }
    }
  }

  /** Title casing a title-cased string changes nothing. */
  lemma {:induction false} TitleIdempotent(s: string)
    ensures Title(Title(s)) == Title(s)
  {
    var r := Title(s);
    var rr := Title(r);
    forall i | 0 <= i < |s|
      ensures rr[i] == r[i]
    {
      CaseRoundTrips(s[i]);
      assert i > 0 ==> (IsCased(r[i - 1]) <==> IsCased(s[i - 1]));
      assert WordStart(r, i, false) == WordStart(s, i, false);
    }
  }

  /** Title casing keeps every character without case, so it keeps the
      whitespace layout. */
  lemma TitleKeepsLayout(s: string)
    ensures Trimmed(s) ==> Trimmed(Title(s))
    ensures SingleSpaced(s) ==> SingleSpaced(Title(s))
  {
    var r := Title(s);
    forall i | 0 <= i < |s|
      ensures IsSpace(r[i]) <==> IsSpace(s[i])
      ensures IsSpace(s[i]) ==> r[i] == s[i]
    {
      if WordStart(s, i, false) {
        assert r[i] == ToUpper(s[i]);
      } else {
        assert r[i] == ToLower(s[i]);
      }
    }
  }

  /** The pipeline `.str.strip().str.replace(r"\s+", " ").str.title()`. */
  function Normalize(s: string): (r: string)
  {
    Title(Collapse(Strip(s)))
  }

  /** A name as the normalisation leaves it: trimmed, single-spaced and in
      title case. */
  predicate Normalized(s: string) {
    Trimmed(s) && SingleSpaced(s) && Title(s) == s
  }

  /** A collapsed trimmed string is still trimmed. */
  lemma {:induction false} CollapseKeepsTrimmed(s: string)
    requires Trimmed(s)
    ensures Trimmed(Collapse(s))
  {
    if s != [] {
      CollapseKeepsLast(s);
    }
  }

  /** Every normalised name is trimmed, single-spaced and in title case,
      and normalising it again changes nothing; a name already in that
      form is its own normalisation. */
  lemma {:induction false} NormalizeIsCanonical(s: string)
    ensures Normalized(Normalize(s))
    ensures Normalize(Normalize(s)) == Normalize(s)
    ensures Normalized(s) ==> Normalize(s) == s
  {
    var c := Collapse(Strip(s));
    CollapseKeepsTrimmed(Strip(s));
    CollapseIsSingleSpaced(Strip(s));
    TitleKeepsLayout(c);
    TitleIdempotent(c);
    var n := Title(c);
    assert Normalized(n);
    CollapseIdentity(n);
    assert Strip(n) == n && Collapse(n) == n;
    if Normalized(s) {
      CollapseIdentity(s);
      assert Strip(s) == s && Collapse(s) == s;
    }
  }

  /** The characters of a string other than whitespace, lower-cased: what
      normalisation must keep. */
  function Key(s: string): (k: string)
    ensures |k| <= |s|
  {
    if s == [] then [] else (if IsSpace(s[0]) then [] else [ToLower(s[0])]) + Key(s[1..])
  }

  lemma {:induction false} KeyConcat(a: string, b: string)
    ensures Key(a + b) == Key(a) + Key(b)
    decreases |a|
  {
    if a != [] {
      assert (a + b)[0] == a[0];
      assert (a + b)[1..] == a[1..] + b;
      KeyConcat(a[1..], b);
      var h := if IsSpace(a[0]) then [] else [ToLower(a[0])];
      calc {
        Key(a + b);
        h + Key(a[1..] + b);
        h + (Key(a[1..]) + Key(b));
        (h + Key(a[1..])) + Key(b);
        Key(a) + Key(b);
      }
    } else {
      assert a + b == b;
    }
  }

  lemma {:induction false} KeyOfSpaces(s: string)
    requires forall i :: 0 <= i < |s| ==> IsSpace(s[i])
    ensures Key(s) == []
    decreases |s|
  {
    if s != [] {
      KeyOfSpaces(s[1..]);
    }
  }

  lemma StripLeadingKeepsKey(s: string)
    ensures Key(StripLeading(s)) == Key(s)
  {
    var t := StripLeading(s);
    var spaces := s[..|s| - |t|];
    assert s == spaces + t;
    KeyConcat(spaces, t);
    KeyOfSpaces(spaces);
  }

  lemma StripTrailingKeepsKey(t: string)
    ensures Key(StripTrailing(t)) == Key(t)
  {
    var r := StripTrailing(t);
    var spaces := t[|r|..];
    assert t == r + spaces;
    KeyConcat(r, spaces);
    KeyOfSpaces(spaces);
  }

  lemma StripKeepsKey(s: string)
    ensures Key(Strip(s)) == Key(s)
  {
    StripLeadingKeepsKey(s);
    StripTrailingKeepsKey(StripLeading(s));
  }

  lemma {:induction false} CollapseKeepsKey(s: string)
    ensures Key(Collapse(s)) == Key(s)
    decreases |s|
  {
    if s != [] {
      if IsSpace(s[0]) {
        var t := StripLeading(s[1..]);
        CollapseKeepsKey(t);
        assert s[1..] == s[1..][..|s| - 1 - |t|] + t;
        KeyConcat(s[1..][..|s| - 1 - |t|], t);
        KeyOfSpaces(s[1..][..|s| - 1 - |t|]);
        assert ([' '] + Collapse(t))[1..] == Collapse(t);
      } else {
        CollapseKeepsKey(s[1..]);
        assert ([s[0]] + Collapse(s[1..]))[1..] == Collapse(s[1..]);
      }
    }
  }

  lemma {:induction false} TitleKeepsKeyFrom(s: string, afterCased: bool)
    ensures Key(TitleFrom(s, afterCased)) == Key(s)
    decreases |s|
  {
    if s != [] {
      var r := TitleFrom(s, afterCased);
      CaseRoundTrips(s[0]);
      assert r[1..] == TitleFrom(s[1..], IsCased(s[0]));
      TitleKeepsKeyFrom(s[1..], IsCased(s[0]));
    }
  }

  /** Normalisation only changes whitespace and letter case: the
      lower-cased non-whitespace characters survive, in order. */
  lemma {:induction false} NormalizeKeepsKey(s: string)
    ensures Key(Normalize(s)) == Key(s)
  {
    StripKeepsKey(s);
    CollapseKeepsKey(Strip(s));
    TitleKeepsKeyFrom(Collapse(Strip(s)), false);
  }

  /** A name is empty after cleaning exactly when it was all whitespace. */
  lemma NormalizeEmpty(s: string)
    ensures Normalize(s) == [] <==> forall i :: 0 <= i < |s| ==> IsSpace(s[i])
  {
  }

  // ---------------------------------------------------------------------
  // Columns
  // ---------------------------------------------------------------------

  /** The standardised name of one raw cell: `astype(str)`, then the
      normalisation. */
  function StandardName(c: Cell, render: nat -> string): (t: string)
    ensures Key(t) == Key(AsStr(c, render))
  {
    NormalizeKeepsKey(AsStr(c, render));
    Normalize(AsStr(c, render))
  }

  /** The standardised names of a table's rows, from its raw name column. */
  function NameColumn(f: Frame, raw: string, render: nat -> string): (names: seq<Cell>)
    requires Rectangular(f) && raw in f.columns
    ensures |names| == |f.rows|
    ensures forall i :: 0 <= i < |f.rows| ==>
      names[i] == Text(StandardName(f.rows[i][IndexOf(f.columns, raw)], render))
  {
    var k := IndexOf(f.columns, raw);
    seq(|f.rows|, i requires 0 <= i < |f.rows| => Text(StandardName(f.rows[i][k], render)))
  }

  /** `standardize_neighborhood_names`: KeyError without the raw column,
      otherwise a copy with the standardised column set or appended. */
  function StandardizeNames(f: Frame, raw: string, standardized: string, render: nat -> string): (r: Result<Frame>)
    requires Rectangular(f)
    ensures raw !in f.columns <==> r.Err?
    ensures r.Err? ==> r.error == MissingColumns([raw]) && ExceptionOf(r.error) == KeyError
  {
    if raw !in f.columns then Err(MissingColumns([raw]))
    else Ok(SetColumn(f, standardized, NameColumn(f, raw, render)))
  }

  /** After standardising: the same rows, the standardised column appended
      if it was missing, and every other column (so the raw one too, when
      the names differ) untouched. */
  lemma StandardizeKeepsOthers(f: Frame, raw: string, standardized: string, render: nat -> string)
    requires Rectangular(f) && raw in f.columns
    ensures var r := StandardizeNames(f, raw, standardized, render).value;
      && Rectangular(r) && |r.rows| == |f.rows|
      && (standardized in f.columns ==> r.columns == f.columns)
      && (standardized !in f.columns ==> r.columns == f.columns + [standardized])
      && standardized in r.columns
      && (forall i, j :: 0 <= i < |f.rows| && 0 <= j < |f.columns| && f.columns[j] != standardized ==>
            r.rows[i][j] == f.rows[i][j])
  {
    var r := StandardizeNames(f, raw, standardized, render).value;
    if standardized !in f.columns {
      assert r.columns[|f.columns|] == standardized;
    }
  }

  /** Every cell of the standardised column holds the normalised text of the
      row's raw cell, which is in canonical form. */
  lemma {:induction false} StandardizedColumn(f: Frame, raw: string, standardized: string, render: nat -> string)
    requires Rectangular(f) && raw in f.columns
    ensures var r := StandardizeNames(f, raw, standardized, render).value;
      && (forall i, j :: 0 <= i < |r.rows| && 0 <= j < |r.columns| && r.columns[j] == standardized ==>
            r.rows[i][j] == Text(Normalize(AsStr(f.rows[i][IndexOf(f.columns, raw)], render))))
      && (forall i, j :: 0 <= i < |r.rows| && 0 <= j < |r.columns| && r.columns[j] == standardized ==>
            r.rows[i][j].Text? && Normalized(r.rows[i][j].s))
  {
    var names := NameColumn(f, raw, render);
    var r := StandardizeNames(f, raw, standardized, render).value;
    assert r == SetColumn(f, standardized, names);
    var k := IndexOf(f.columns, raw);
    forall i, j | 0 <= i < |r.rows| && 0 <= j < |r.columns| && r.columns[j] == standardized
      ensures r.rows[i][j] == Text(Normalize(AsStr(f.rows[i][k], render)))
      ensures r.rows[i][j].Text? && Normalized(r.rows[i][j].s)
    {
      if j < |f.columns| {
        assert f.columns[j] == standardized;
        assert r.rows[i][j] == names[i];
      } else {
        assert r.rows[i][j] == names[i];
      }
      NormalizeIsCanonical(AsStr(f.rows[i][k], render));
    }
  }

  /** The columns `select_output_columns` keeps: those of the standardised
      name and the geometry that exist, in that order. */
  function OutputColumns(columns: seq<string>, standardized: string): (keep: seq<string>)
    ensures forall c :: c in keep <==> c in columns && (c == standardized || c == GEOMETRY_COLUMN)
    ensures |keep| <= 2
    ensures |keep| == 2 ==> keep == [standardized, GEOMETRY_COLUMN]
    ensures keep != [] && keep[0] == GEOMETRY_COLUMN && standardized != GEOMETRY_COLUMN ==> keep == [GEOMETRY_COLUMN]
  {
    (if standardized in columns then [standardized] else [])
    + (if GEOMETRY_COLUMN in columns then [GEOMETRY_COLUMN] else [])
  }

  /** `select_output_columns`: a copy restricted to the kept columns, every
      row's cells carried over. */
  function SelectOutputColumns(f: Frame, standardized: string): (r: Frame)
    requires Rectangular(f)
    ensures Rectangular(r) && r.columns == OutputColumns(f.columns, standardized)
    ensures |r.rows| == |f.rows|
    ensures forall i, j :: 0 <= i < |r.rows| && 0 <= j < |r.columns| ==>
      r.rows[i][j] == f.rows[i][IndexOf(f.columns, r.columns[j])]
  {
    Project(f, OutputColumns(f.columns, standardized))
  }

  /** The result of `main`: the cleaned table and its CRS. */
  datatype Prepared = Prepared(table: Frame, crs: Option<string>)

  /** `main` after loading: align, clip (the clipped table of the aligned
      layer is `clip(crs)`), standardise, select. */
  function PrepareNeighborhoods(neighborhoodsCrs: Option<string>, boundaryCrs: Option<string>,
                                clip: Option<string> -> Frame, render: nat -> string): (r: Result<Prepared>)
    requires Rectangular(clip(AlignCrs(neighborhoodsCrs, boundaryCrs).neighborhoodsCrs))
    ensures var clipped := clip(AlignCrs(neighborhoodsCrs, boundaryCrs).neighborhoodsCrs);
      && (r.Err? <==> IsEmpty(clipped) || RAW_NAME_COLUMN !in clipped.columns)
      && (r.Err? ==> ExceptionOf(r.error) == ValueError || ExceptionOf(r.error) == KeyError)
      && (r.Ok? ==> r.value.crs == AlignCrs(neighborhoodsCrs, boundaryCrs).neighborhoodsCrs
                    && (boundaryCrs.Some? ==> r.value.crs == boundaryCrs)
                    && Rectangular(r.value.table) && |r.value.table.rows| == |clipped.rows|)
  {
    var aligned := AlignCrs(neighborhoodsCrs, boundaryCrs);
    match CheckClip(clip(aligned.neighborhoodsCrs))
    case Err(e) => Err(e)
    case Ok(clipped) =>
      match StandardizeNames(clipped, RAW_NAME_COLUMN, STANDARDIZED_NAME_COLUMN, render)
      case Err(e) => Err(e)
      case Ok(named) => Ok(Prepared(SelectOutputColumns(named, STANDARDIZED_NAME_COLUMN), aligned.neighborhoodsCrs))
  }

  /** The preparation fails with ValueError when the clip leaves nothing,
      then with KeyError when the raw name column is missing; otherwise the
      output has the clip's rows, its first column is the standardised name
      in canonical form, at most the geometry follows, and the CRS is the
      boundary's whenever the boundary has one. */
  lemma {:induction false} PrepareOutcome(neighborhoodsCrs: Option<string>, boundaryCrs: Option<string>,
                                          clip: Option<string> -> Frame, render: nat -> string)
    requires Rectangular(clip(AlignCrs(neighborhoodsCrs, boundaryCrs).neighborhoodsCrs))
    ensures var clipped := clip(AlignCrs(neighborhoodsCrs, boundaryCrs).neighborhoodsCrs);
      var r := PrepareNeighborhoods(neighborhoodsCrs, boundaryCrs, clip, render);
      && (IsEmpty(clipped) ==> r == Err(EmptyClip))
      && (!IsEmpty(clipped) && RAW_NAME_COLUMN !in clipped.columns ==> r == Err(MissingColumns([RAW_NAME_COLUMN])))
      && (r.Ok? <==> !IsEmpty(clipped) && RAW_NAME_COLUMN in clipped.columns)
      && (r.Ok? ==>
            && |r.value.table.rows| == |clipped.rows|
            && r.value.table.columns != [] && r.value.table.columns[0] == STANDARDIZED_NAME_COLUMN
            && (GEOMETRY_COLUMN in clipped.columns <==> r.value.table.columns == [STANDARDIZED_NAME_COLUMN, GEOMETRY_COLUMN])
            && (forall i :: 0 <= i < |r.value.table.rows| ==>
                  r.value.table.rows[i][0].Text? && Normalized(r.value.table.rows[i][0].s))
            && (boundaryCrs.Some? ==> r.value.crs == boundaryCrs))
  {
    var clipped := clip(AlignCrs(neighborhoodsCrs, boundaryCrs).neighborhoodsCrs);
    if !IsEmpty(clipped) && RAW_NAME_COLUMN in clipped.columns {
      StandardizeKeepsOthers(clipped, RAW_NAME_COLUMN, STANDARDIZED_NAME_COLUMN, render);
      StandardizedColumn(clipped, RAW_NAME_COLUMN, STANDARDIZED_NAME_COLUMN, render);
      var named := StandardizeNames(clipped, RAW_NAME_COLUMN, STANDARDIZED_NAME_COLUMN, render).value;
      var out := SelectOutputColumns(named, STANDARDIZED_NAME_COLUMN);
      assert GEOMETRY_COLUMN in clipped.columns <==> GEOMETRY_COLUMN in named.columns;
      forall i | 0 <= i < |out.rows|
        ensures out.rows[i][0].Text? && Normalized(out.rows[i][0].s)
      {
        var j := IndexOf(named.columns, STANDARDIZED_NAME_COLUMN);
        assert out.rows[i][0] == named.rows[i][j];
      }
    }
  }
}
