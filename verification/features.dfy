/** The second half of the sync: turning the decoded CSV rows into GeoJSON
    point features with a fixed property bag, the running totals
    (`total_boletas`, `total_plantas`, `total_participantes`) and the latest
    submission date. */
module Features {

  import opened Wrappers
  import opened Text
  import opened Columns
  import opened Coerce

  /** The library routines the loop calls but this model does not define:
      `float`, `round` on a finite float, `datetime.fromisoformat`, and the
      instant a parsed timestamp denotes (which orders timestamps). */
  datatype Oracles<!T> = Oracles(
    parseFloat: string -> Option<Float>,
    round: real -> int,
    parseIso: string -> Option<T>,
    instant: T -> int)

  /** The fixed property bag of one feature. */
  datatype Props = Props(
    id: string,
    fechaActividad: string,
    municipios: seq<string>,
    comunidad: string,
    sitioNombre: string,
    instituciones: seq<string>,
    institucionRespOtro: string,
    areaM2: int,
    tenencia: string,
    totalPlantas: int,
    totalParticipantes: int,
    autorizaFotos: string,
    fotoSitioUrl: string,
    fotoActividadUrl: string,
    observaciones: string)

  /** A GeoJSON point feature. */
  datatype Feature = Feature(coordinates: Coord, properties: Props)

  /** The columns resolved once from the header. */
  datatype Fields = Fields(geopoint: string, date: Option<string>, plantas: Option<string>, participantes: Option<string>)

  /** The loop state: features so far, the three totals and the latest
      parsed date. */
  datatype Acc<T> = Acc(
    features: seq<Feature>,
    totalBoletas: int,
    totalPlantas: int,
    totalParticipantes: int,
    lastTs: Option<T>)

  /** Columns that identify a submission, in precedence order. */
  const IdColumns: seq<string> := ["_id", "_uuid", "meta/instanceID", "id"]

  // ---------------------------------------------------------------------
  // one row

  /** `keys[i]` is the first key whose cell is a non-empty string. */
  predicate IsFirstFilled(row: Row, keys: seq<string>, i: int) {
    && 0 <= i < |keys|
    && Truthy(Get(row, keys[i]))
    && forall j :: 0 <= j < i ==> !Truthy(Get(row, keys[j]))
  }

  /** The value of the first key whose cell is non-empty: Python's
      `row.get(k0) or row.get(k1) or ...`. */
  function FirstFilled(row: Row, keys: seq<string>): Option<string> {
    if keys == [] then None
    else if Truthy(Get(row, keys[0])) then Some(row[keys[0]])
    else FirstFilled(row, keys[1..])
  }

  lemma {:induction false} FirstFilledSpec(row: Row, keys: seq<string>)
    ensures var r := FirstFilled(row, keys);
      && (r.Some? ==> exists i :: IsFirstFilled(row, keys, i) && r.value == row[keys[i]])
      && (r.None? <==> forall j :: 0 <= j < |keys| ==> !Truthy(Get(row, keys[j])))
    decreases |keys|
  {
    if keys != [] {
      if Truthy(Get(row, keys[0])) {
        assert IsFirstFilled(row, keys, 0);
      } else {
        FirstFilledSpec(row, keys[1..]);
        assert forall j :: 1 <= j < |keys| ==> keys[j] == keys[1..][j - 1];
        var r := FirstFilled(row, keys[1..]);
        if r.Some? {
          var i :| IsFirstFilled(row, keys[1..], i) && r.value == row[keys[1..][i]];
          assert IsFirstFilled(row, keys, i + 1);
        }
      }
    }
  }

  /** The feature id when `k` features have already been emitted: the first
      non-empty identity column, else `row-(k+1)`. */
  function RowId(row: Row, k: nat): string {
    match FirstFilled(row, IdColumns)
    case Some(v) => v
    case None => "row-" + NatToString(k + 1)
  }

  lemma RowIdSpec(row: Row, k: nat)
    ensures var r := RowId(row, k);
      && r != ""
      && ((exists i :: IsFirstFilled(row, IdColumns, i) && r == row[IdColumns[i]])
         || ((forall j :: 0 <= j < |IdColumns| ==> !Truthy(Get(row, IdColumns[j]))) && r == "row-" + NatToString(k + 1)))
  {
    FirstFilledSpec(row, IdColumns);
  }

  /** Two rows without any identity column get different synthetic ids. */
  lemma SyntheticIdsDistinct(r1: Row, r2: Row, k1: nat, k2: nat)
    requires FirstFilled(r1, IdColumns).None? && FirstFilled(r2, IdColumns).None?
    requires k1 != k2
    ensures RowId(r1, k1) != RowId(r2, k2)
  {
    var p := "row-";
    if RowId(r1, k1) == RowId(r2, k2) {
      assert (p + NatToString(k1 + 1))[4..] == NatToString(k1 + 1);
      assert (p + NatToString(k2 + 1))[4..] == NatToString(k2 + 1);
      NatToStringInjective(k1 + 1, k2 + 1);
    }
  }

  /** `to_int` of the count column when one was found, else of the column
      named `fallback` (in this script the two coincide). */
  function CountOf<T>(row: Row, field: Option<string>, fallback: string, env: Oracles<T>): int {
    if field.Some? then ToInt(Get(row, field.value), env.parseFloat, env.round)
    else ToInt(Get(row, fallback), env.parseFloat, env.round)
  }

  /** The property bag of a row emitted as feature number `k` (from 0). */
  function MakeProps<T>(row: Row, fields: Fields, k: nat, env: Oracles<T>): Props {
    Props(
      id := RowId(row, k),
      fechaActividad := OrElse(Get(row, "fecha_actividad"),
                          OrElse(if fields.date.Some? then Get(row, fields.date.value) else Some(""), "")),
      municipios := SplitMulti(Get(row, "municipios")),
      comunidad := OrElse(Get(row, "comunidad"), ""),
      sitioNombre := OrElse(Get(row, "sitio_nombre"), ""),
      instituciones := SplitMulti(Get(row, "institucion_resp")),
      institucionRespOtro := OrElse(Get(row, "institucion_resp_otro"), ""),
      areaM2 := ToInt(Get(row, "area_m2"), env.parseFloat, env.round),
      tenencia := OrElse(Get(row, "tenencia"), ""),
      totalPlantas := CountOf(row, fields.plantas, "total_plantas", env),
      totalParticipantes := CountOf(row, fields.participantes, "total_participantes", env),
      autorizaFotos := OrElse(Get(row, "autoriza_fotos"), ""),
      fotoSitioUrl := OrElse(Get(row, "foto_sitio"), ""),
      fotoActividadUrl := OrElse(Get(row, "foto_actividad"), ""),
      observaciones := OrElse(Get(row, "observaciones"), ""))
  }

  /** A cell read with Python's `row.get(key) or ""`. */
  function TextOr(row: Row, key: string): string {
    if Truthy(Get(row, key)) then row[key] else ""
  }

  /** The property bag cell by cell: the id; the activity date from its own
      column, else from the resolved date column, else empty; the two
      select-multiple answers split on whitespace (a missing cell gives no
      choices); the plain text cells, empty when missing or empty; and the
      area read as a count. */
  lemma PropsSpec<T>(row: Row, fields: Fields, k: nat, env: Oracles<T>)
    ensures var p := MakeProps(row, fields, k, env);
      && p.id == RowId(row, k)
      && p.fechaActividad ==
           (if Truthy(Get(row, "fecha_actividad")) then row["fecha_actividad"]
            else if fields.date.Some? && Truthy(Get(row, fields.date.value)) then row[fields.date.value]
            else "")
      && p.municipios == (if "municipios" in row then Split(row["municipios"]) else [])
      && p.instituciones == (if "institucion_resp" in row then Split(row["institucion_resp"]) else [])
      && p.comunidad == TextOr(row, "comunidad")
      && p.sitioNombre == TextOr(row, "sitio_nombre")
      && p.institucionRespOtro == TextOr(row, "institucion_resp_otro")
      && p.tenencia == TextOr(row, "tenencia")
      && p.autorizaFotos == TextOr(row, "autoriza_fotos")
      && p.fotoSitioUrl == TextOr(row, "foto_sitio")
      && p.fotoActividadUrl == TextOr(row, "foto_actividad")
      && p.observaciones == TextOr(row, "observaciones")
      && p.areaM2 == ToInt(Get(row, "area_m2"), env.parseFloat, env.round)
  {
    SplitMultiSpec(Get(row, "municipios"));
    SplitMultiSpec(Get(row, "institucion_resp"));
  }

  /** With the columns resolved from the header, the two counts always come
      from the `total_plantas` and `total_participantes` cells: the resolved
      column, when there is one, is that same column. */
  lemma CountsReadTheirColumn<T>(header: seq<string>, row: Row, fields: Fields, k: nat, env: Oracles<T>)
    requires ResolveFields(header) == Some(fields)
    ensures MakeProps(row, fields, k, env).totalPlantas == ToInt(Get(row, "total_plantas"), env.parseFloat, env.round)
    ensures MakeProps(row, fields, k, env).totalParticipantes == ToInt(Get(row, "total_participantes"), env.parseFloat, env.round)
  {
    assert PlantasCandidates[0] == "total_plantas";
    assert ParticipantesCandidates[0] == "total_participantes";
    if fields.plantas.Some? {
      var i :| IsFirstPresent(header, PlantasCandidates, i) && PlantasCandidates[i] == fields.plantas.value;
    }
    if fields.participantes.Some? {
      var i :| IsFirstPresent(header, ParticipantesCandidates, i) && ParticipantesCandidates[i] == fields.participantes.value;
    }
  }

  /** The row's point, if its geopoint cell parses. */
  function CoordsOf<T>(row: Row, fields: Fields, env: Oracles<T>): Option<Coord> {
    ParseGeopoint(Get(row, fields.geopoint), env.parseFloat)
  }

  predicate HasCoords<T>(row: Row, fields: Fields, env: Oracles<T>) {
    CoordsOf(row, fields, env).Some?
  }

  /** The feature a row with coordinates becomes as feature number `k`. */
  function MakeFeature<T>(row: Row, fields: Fields, k: nat, env: Oracles<T>): Feature
    requires HasCoords(row, fields, env)
  {
    Feature(CoordsOf(row, fields, env).value, MakeProps(row, fields, k, env))
  }

  /** The row's parsed date: `None` without a date column or when it does
      not parse. */
  function DateOf<T>(row: Row, fields: Fields, env: Oracles<T>): Option<T> {
    if fields.date.Some? then IsoParse(Get(row, fields.date.value), env.parseIso) else None
  }

  /** The later of the current maximum and a new timestamp; on a tie the
      one seen first is kept (the comparison is strict). */
  function Later<T>(last: Option<T>, ts: Option<T>, instant: T -> int): (r: Option<T>)
    ensures r == last || r == ts
    ensures r.None? <==> last.None? && ts.None?
    ensures r.Some? && last.Some? ==> instant(r.value) >= instant(last.value)
    ensures r.Some? && ts.Some? ==> instant(r.value) >= instant(ts.value)
    ensures last.Some? && ts.Some? && instant(ts.value) <= instant(last.value) ==> r == last
  {
    if ts.Some? && (last.None? || instant(ts.value) > instant(last.value)) then ts else last
  }

  // ---------------------------------------------------------------------
  // the loop

  /** One iteration: a row without coordinates is skipped; otherwise the
      feature is appended, the totals grow and the maximum date moves. */
  function Step<T>(acc: Acc<T>, row: Row, fields: Fields, env: Oracles<T>): Acc<T> {
    match CoordsOf(row, fields, env)
    case None => acc
    case Some(c) =>
      var p := MakeProps(row, fields, |acc.features|, env);
      Acc(acc.features + [Feature(c, p)],
          acc.totalBoletas + 1,
          acc.totalPlantas + p.totalPlantas,
          acc.totalParticipantes + p.totalParticipantes,
          if fields.date.Some? then Later(acc.lastTs, DateOf(row, fields, env), env.instant) else acc.lastTs)
  }

  /** The loop state after processing every row of `rows`, in order. */
  function Build<T>(rows: seq<Row>, fields: Fields, env: Oracles<T>): Acc<T> {
    if rows == [] then Acc([], 0, 0, 0, None)
    else Step(Build(rows[..|rows| - 1], fields, env), rows[|rows| - 1], fields, env)
  }

  /** The rows that become features, in row order. */
  function Included<T>(rows: seq<Row>, fields: Fields, env: Oracles<T>): (r: seq<Row>)
    ensures |r| <= |rows|
    ensures forall i :: 0 <= i < |r| ==> HasCoords(r[i], fields, env)
  {
    if rows == [] then []
    else
      var init := Included(rows[..|rows| - 1], fields, env);
      if HasCoords(rows[|rows| - 1], fields, env) then init + [rows[|rows| - 1]] else init
  }

  /** A single row is kept exactly when it has coordinates. */
  lemma IncludedOne<T>(row: Row, fields: Fields, env: Oracles<T>)
    ensures Included([row], fields, env) == if HasCoords(row, fields, env) then [row] else []
  {
    assert [row][..0] == [];
  }

  /** `Included` works piecewise over a split of the rows, so their order
      and repeats are kept. */
  lemma {:induction false} IncludedAppend<T>(a: seq<Row>, b: seq<Row>, fields: Fields, env: Oracles<T>)
    ensures Included(a + b, fields, env) == Included(a, fields, env) + Included(b, fields, env)
    decreases |b|
  {
    if b == [] {
      assert a + b == a;
    } else {
      var init := b[..|b| - 1];
      var last := b[|b| - 1];
      assert (a + b)[..|a + b| - 1] == a + init;
      assert (a + b)[|a + b| - 1] == last;
      IncludedAppend(a, init, fields, env);
    }
  }

  function SumPlantas(fs: seq<Feature>): int {
    if fs == [] then 0 else SumPlantas(fs[..|fs| - 1]) + fs[|fs| - 1].properties.totalPlantas
  }

  function SumParticipantes(fs: seq<Feature>): int {
    if fs == [] then 0 else SumParticipantes(fs[..|fs| - 1]) + fs[|fs| - 1].properties.totalParticipantes
  }

  /** The totals always agree with the features: `total_boletas` counts
      them and the two sums add up their properties. */
  lemma {:induction false} TotalsMatchFeatures<T>(rows: seq<Row>, fields: Fields, env: Oracles<T>)
    ensures var acc := Build(rows, fields, env);
      && acc.totalBoletas == |acc.features|
      && acc.totalPlantas == SumPlantas(acc.features)
      && acc.totalParticipantes == SumParticipantes(acc.features)
    decreases |rows|
  {
    if rows != [] {
      var prev := Build(rows[..|rows| - 1], fields, env);
      TotalsMatchFeatures(rows[..|rows| - 1], fields, env);
      var acc := Build(rows, fields, env);
      if HasCoords(rows[|rows| - 1], fields, env) {
        assert acc.features[..|acc.features| - 1] == prev.features;
      }
    }
  }

  /** `f` applied to every element together with its position. */
  function MapIndexed<A, B>(xs: seq<A>, f: (A, nat) --> B): (ys: seq<B>)
    requires forall i :: 0 <= i < |xs| ==> f.requires(xs[i], i)
    ensures |ys| == |xs|
  {
    if xs == [] then []
    else MapIndexed(xs[..|xs| - 1], f) + [f(xs[|xs| - 1], |xs| - 1)]
  }

  lemma {:induction false} MapIndexedAt<A, B>(xs: seq<A>, f: (A, nat) --> B, j: nat)
    requires forall i :: 0 <= i < |xs| ==> f.requires(xs[i], i)
    requires j < |xs|
    ensures MapIndexed(xs, f)[j] == f(xs[j], j)
    decreases |xs|
  {
    var init := xs[..|xs| - 1];
    if j < |init| {
      MapIndexedAt(init, f, j);
      assert xs[j] == init[j];
    }
  }

  /** Building feature number `k` from a row with coordinates. */
  function Maker<T>(fields: Fields, env: Oracles<T>): (Row, nat) --> Feature {
    (row: Row, k: nat) requires HasCoords(row, fields, env) => MakeFeature(row, fields, k, env)
  }

  /** The features are exactly those of the included rows, in row order. */
  lemma {:induction false} BuildEmitsIncluded<T>(rows: seq<Row>, fields: Fields, env: Oracles<T>)
    ensures Build(rows, fields, env).features == MapIndexed(Included(rows, fields, env), Maker(fields, env))
    decreases |rows|
  {
    if rows != [] {
      var init := rows[..|rows| - 1];
      var row := rows[|rows| - 1];
      BuildEmitsIncluded(init, fields, env);
      var inc := Included(init, fields, env);
      if HasCoords(row, fields, env) {
        assert (inc + [row])[..|inc|] == inc;
        assert Maker(fields, env)(row, |inc|) == MakeFeature(row, fields, |inc|, env);
      }
    }
  }

  /** The features are exactly the included rows, in row order, the j-th
      built as feature number j (which fixes its synthetic id). */
  lemma FeaturesAreIncludedRows<T>(rows: seq<Row>, fields: Fields, env: Oracles<T>)
    ensures var fs := Build(rows, fields, env).features;
      var inc := Included(rows, fields, env);
      && |fs| == |inc|
      && forall j :: 0 <= j < |fs| ==> fs[j] == MakeFeature(inc[j], fields, j, env)
  {
    var inc := Included(rows, fields, env);
    BuildEmitsIncluded(rows, fields, env);
    forall j | 0 <= j < |inc| ensures MapIndexed(inc, Maker(fields, env))[j] == MakeFeature(inc[j], fields, j, env) {
      MapIndexedAt(inc, Maker(fields, env), j);
    }
  }

  /** Each feature's id is its row's first non-empty identity column, else
      `row-N` with N its 1-based position among the features. */
  lemma FeatureIds<T>(rows: seq<Row>, fields: Fields, env: Oracles<T>, j: nat)
    requires j < |Included(rows, fields, env)|
    ensures var fs := Build(rows, fields, env).features;
      var row := Included(rows, fields, env)[j];
      && j < |fs|
      && fs[j].properties.id == match FirstFilled(row, IdColumns) case Some(v) => v case None => "row-" + NatToString(j + 1)
  {
    FeaturesAreIncludedRows(rows, fields, env);
  }

  /** A row whose geopoint does not parse changes nothing at all. */
  lemma SkippedRowContributesNothing<T>(rows: seq<Row>, row: Row, fields: Fields, env: Oracles<T>)
    requires !HasCoords(row, fields, env)
    ensures Build(rows + [row], fields, env) == Build(rows, fields, env)
  {
    assert (rows + [row])[..|rows|] == rows;
  }

  /** Dropping every row without coordinates beforehand gives the same
      result: such rows contribute neither features, totals nor dates. */
  lemma {:induction false} BuildOfIncluded<T>(rows: seq<Row>, fields: Fields, env: Oracles<T>)
    ensures Build(Included(rows, fields, env), fields, env) == Build(rows, fields, env)
    decreases |rows|
  {
    if rows != [] {
      var init := rows[..|rows| - 1];
      var last := rows[|rows| - 1];
      BuildOfIncluded(init, fields, env);
      var inc := Included(init, fields, env);
      if HasCoords(last, fields, env) {
        assert (inc + [last])[..|inc|] == inc;
      }
    }
  }

  /** The parsed date of each row, in row order. */
  function Dates<T>(rows: seq<Row>, fields: Fields, env: Oracles<T>): (ds: seq<Option<T>>)
    ensures |ds| == |rows|
    ensures forall i :: 0 <= i < |rows| ==> ds[i] == DateOf(rows[i], fields, env)
  {
    seq(|rows|, i requires 0 <= i < |rows| => DateOf(rows[i], fields, env))
  }

  /** `r` is the latest of the present timestamps in `ds` (the first of them
      on a tie), or `None` when none is present. */
  ghost predicate IsLatest<T>(ds: seq<Option<T>>, instant: T -> int, r: Option<T>) {
    && (r.None? <==> forall i :: 0 <= i < |ds| ==> ds[i].None?)
    && (r.Some? ==> exists i :: (0 <= i < |ds| && ds[i] == r
          && forall j :: 0 <= j < i ==> ds[j].None? || instant(ds[j].value) < instant(r.value)))
    && (r.Some? ==> forall i :: 0 <= i < |ds| && ds[i].Some? ==> instant(ds[i].value) <= instant(r.value))
  }

  /** Running maximum of a sequence of optional timestamps. */
  function MaxDate<T>(ds: seq<Option<T>>, instant: T -> int): Option<T> {
    if ds == [] then None else Later(MaxDate(ds[..|ds| - 1], instant), ds[|ds| - 1], instant)
  }

  lemma {:induction false} MaxDateIsLatest<T>(ds: seq<Option<T>>, instant: T -> int)
    ensures IsLatest(ds, instant, MaxDate(ds, instant))
    decreases |ds|
  {
    if ds != [] {
      var init := ds[..|ds| - 1];
      var d := ds[|ds| - 1];
      MaxDateIsLatest(init, instant);
      var prev := MaxDate(init, instant);
      var r := MaxDate(ds, instant);
      assert forall i :: 0 <= i < |init| ==> ds[i] == init[i];
      if r.Some? {
        if d.Some? && (prev.None? || instant(d.value) > instant(prev.value)) {
          assert ds[|ds| - 1] == r;
        } else {
          var i :| 0 <= i < |init| && init[i] == prev
            && forall j :: 0 <= j < i ==> init[j].None? || instant(init[j].value) < instant(prev.value);
          assert ds[i] == r;
        }
      }
    }
  }

  lemma DatesSnoc<T>(rows: seq<Row>, row: Row, fields: Fields, env: Oracles<T>)
    ensures Dates(rows + [row], fields, env) == Dates(rows, fields, env) + [DateOf(row, fields, env)]
  {
    var ds := Dates(rows + [row], fields, env);
    var ds' := Dates(rows, fields, env) + [DateOf(row, fields, env)];
    forall i | 0 <= i < |ds| ensures ds[i] == ds'[i] {
      if i < |rows| {
        assert (rows + [row])[i] == rows[i];
      }
    }
  }

  /** One iteration moves `last_ts` to the later of it and the row's date,
      and only when the row has coordinates. */
  lemma StepLastTs<T>(acc: Acc<T>, row: Row, fields: Fields, env: Oracles<T>)
    ensures Step(acc, row, fields, env).lastTs
         == if HasCoords(row, fields, env) then Later(acc.lastTs, DateOf(row, fields, env), env.instant) else acc.lastTs
  {
  }

  /** The loop's `last_ts` is the running maximum of the included rows'
      dates. */
  lemma {:induction false} LastTsIsMaxDate<T>(rows: seq<Row>, fields: Fields, env: Oracles<T>)
    ensures Build(rows, fields, env).lastTs == MaxDate(Dates(Included(rows, fields, env), fields, env), env.instant)
    decreases |rows|
  {
    if rows != [] {
      var init := rows[..|rows| - 1];
      var row := rows[|rows| - 1];
      LastTsIsMaxDate(init, fields, env);
      StepLastTs(Build(init, fields, env), row, fields, env);
      var inc := Included(init, fields, env);
      if HasCoords(row, fields, env) {
        DatesSnoc(inc, row, fields, env);
        var ds := Dates(inc + [row], fields, env);
        assert ds[..|ds| - 1] == Dates(inc, fields, env);
      }
    }
  }

  /** `last_ts` is the latest parsed date among the included rows only (the
      first of equal ones), and `None` when there is no date column or no
      included row's date parses. */
  lemma LastTsIsLatestIncludedDate<T>(rows: seq<Row>, fields: Fields, env: Oracles<T>)
    ensures IsLatest(Dates(Included(rows, fields, env), fields, env), env.instant, Build(rows, fields, env).lastTs)
    ensures fields.date.None? ==> Build(rows, fields, env).lastTs.None?
  {
    var ds := Dates(Included(rows, fields, env), fields, env);
    LastTsIsMaxDate(rows, fields, env);
    MaxDateIsLatest(ds, env.instant);
  }

  /** Zero rows give no features, zero totals and no date. */
  lemma BuildEmpty<T>(fields: Fields, env: Oracles<T>)
    ensures Build([], fields, env) == Acc([], 0, 0, 0, None)
  {
  }

  // ---------------------------------------------------------------------
  // the whole second half of the sync

  /** `ultima_actualizacion`: the latest parsed date, or the wall clock. */
  datatype Stamp<T> = Parsed(t: T) | WallClock

  datatype Summary<T> = Summary(ultimaActualizacion: Stamp<T>, totalBoletas: int, totalPlantas: int, totalParticipantes: int)

  datatype Output<T> = Output(features: seq<Feature>, summary: Summary<T>)

  /** The fatal error when no geopoint column exists: the candidates tried
      and the first forty columns. */
  datatype IngestError = NoGeopointField(tried: seq<string>, shown: seq<string>)

  function Take(s: seq<string>, n: nat): (r: seq<string>)
    ensures |r| <= n && |r| <= |s| && r == s[..|r|]
    ensures |s| <= n ==> r == s
  {
    if |s| <= n then s else s[..n]
  }

  /** The columns the loop reads, resolved from the header; `None` when no
      geopoint candidate is a column. */
  function ResolveFields(header: seq<string>): (r: Option<Fields>)
    ensures r.None? <==> forall j :: 0 <= j < |GeopointCandidates| ==> GeopointCandidates[j] !in header
    ensures r.Some? ==>
      && r.value.geopoint == FirstExistingKey(header, GeopointCandidates).value
      && r.value.date == FirstExistingKey(header, DateCandidates)
      && r.value.plantas == FirstExistingKey(header, PlantasCandidates)
      && r.value.participantes == FirstExistingKey(header, ParticipantesCandidates)
  {
    match FirstExistingKey(header, GeopointCandidates)
    case None => None
    case Some(g) =>
      Some(Fields(g,
        FirstExistingKey(header, DateCandidates),
        FirstExistingKey(header, PlantasCandidates),
        FirstExistingKey(header, ParticipantesCandidates)))
  }

  /** `ultima_actualizacion`: the latest parsed date, else the wall clock. */
  function StampOf<T>(lastTs: Option<T>): Stamp<T> {
    if lastTs.Some? then Parsed(lastTs.value) else WallClock
  }

  /** From the decoded export to the two output documents. No rows gives
      the empty collection and zero totals without looking at the header.
      Otherwise a header without any geopoint candidate is fatal, and a
      success carries the features the loop builds over the resolved
      columns, totals that count and sum them, and the stamp of the
      loop's latest date. */
  function Ingest<T>(table: Table, env: Oracles<T>): (r: Result<Output<T>, IngestError>)
    ensures table.rows == [] ==> r == Success(Output([], Summary(WallClock, 0, 0, 0)))
    ensures r.Failure? <==> table.rows != [] && ResolveFields(table.header).None?
    ensures r.Failure? ==> r.error == NoGeopointField(GeopointCandidates, Take(table.header, 40))
    ensures r.Success? && table.rows != [] ==>
      var acc := Build(table.rows, ResolveFields(table.header).value, env);
      && r.value.features == acc.features
      && r.value.summary.ultimaActualizacion == StampOf(acc.lastTs)
    ensures r.Success? ==>
      var s := r.value.summary;
      && s.totalBoletas == |r.value.features|
      && s.totalPlantas == SumPlantas(r.value.features)
      && s.totalParticipantes == SumParticipantes(r.value.features)
      && |r.value.features| <= |table.rows|
  {
    if table.rows == [] then Success(Output([], Summary(WallClock, 0, 0, 0)))
    else
      match ResolveFields(table.header)
      case None => Failure(NoGeopointField(GeopointCandidates, Take(table.header, 40)))
      case Some(fields) =>
        var acc := Build(table.rows, fields, env);
        TotalsMatchFeatures(table.rows, fields, env);
        FeaturesAreIncludedRows(table.rows, fields, env);
        Success(Output(acc.features,
          Summary(StampOf(acc.lastTs), acc.totalBoletas, acc.totalPlantas, acc.totalParticipantes)))
  }

  /** The stamp is the latest parsed date among the rows that became
      features (the first of equal ones), and the wall clock when none of
      them has a date that parses or there is no date column. */
  lemma IngestStampIsLatestIncludedDate<T>(table: Table, env: Oracles<T>)
    requires table.rows != [] && ResolveFields(table.header).Some?
    ensures var fields := ResolveFields(table.header).value;
      var ds := Dates(Included(table.rows, fields, env), fields, env);
      var stamp := Ingest(table, env).value.summary.ultimaActualizacion;
      && (stamp.WallClock? <==> forall i :: 0 <= i < |ds| ==> ds[i].None?)
      && (stamp.Parsed? ==> IsLatest(ds, env.instant, Some(stamp.t)))
      && (fields.date.None? ==> stamp.WallClock?)
  {
    LastTsIsLatestIncludedDate(table.rows, ResolveFields(table.header).value, env);
  }
}
