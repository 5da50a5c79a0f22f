/** The decoded CSV export and the priority-ordered column lookup used to
    find the geopoint, date and count columns. */
module Columns {

  import opened Wrappers

  /** One submission as the CSV reader yields it: column name to cell text.
      A cell the reader fills with `None` (a line shorter than the header)
      is represented by the key being absent. */
  type Row = map<string, string>

  /** The decoded export: the header line's column names (which are the keys
      of every row) and the rows in file order. */
  datatype Table = Table(header: seq<string>, rows: seq<Row>)

  /** `row.get(key)`. */
  function Get(row: Row, key: string): Option<string> {
    if key in row then Some(row[key]) else None
  }

  /** Candidate column names, in priority order. */
  const GeopointCandidates: seq<string> := ["ubicacion", "_geolocation", "geopoint", "location"]
  const DateCandidates: seq<string> :=
    ["fecha_actividad", "_submission_time", "endtime", "starttime", "today", "start", "end"]
  const PlantasCandidates: seq<string> := ["total_plantas"]
  const ParticipantesCandidates: seq<string> := ["total_participantes"]

  /** `candidates[i]` is the first candidate that is a column of `headers`. */
  predicate IsFirstPresent(headers: seq<string>, candidates: seq<string>, i: int) {
    && 0 <= i < |candidates|
    && candidates[i] in headers
    && forall j :: 0 <= j < i ==> candidates[j] !in headers
  }

  /** The earliest candidate, in candidate order, that occurs among the
      headers; `None` exactly when no candidate occurs. Header order plays
      no part: only membership is asked. */
  function FirstExistingKey(headers: seq<string>, candidates: seq<string>): (r: Option<string>)
    ensures r.Some? ==> exists i :: IsFirstPresent(headers, candidates, i) && candidates[i] == r.value
    ensures r.None? <==> forall j :: 0 <= j < |candidates| ==> candidates[j] !in headers
  {
    if candidates == [] then None
    else if candidates[0] in headers then
      assert IsFirstPresent(headers, candidates, 0);
      Some(candidates[0])
    else
      var r := FirstExistingKey(headers, candidates[1..]);
      assert forall j :: 1 <= j < |candidates| ==> candidates[j] == candidates[1..][j - 1];
      if r.Some? then
        var i :| IsFirstPresent(headers, candidates[1..], i) && candidates[1..][i] == r.value;
        assert IsFirstPresent(headers, candidates, i + 1);
        r
      else
        r
  }

  /** The answer does not depend on how the header list is ordered or
      repeated, only on which names it contains. */
  lemma {:induction false} FirstExistingKeySameNames(h1: seq<string>, h2: seq<string>, candidates: seq<string>)
    requires forall c :: c in h1 <==> c in h2
    ensures FirstExistingKey(h1, candidates) == FirstExistingKey(h2, candidates)
    decreases |candidates|
  {
    if candidates != [] && candidates[0] !in h1 {
      FirstExistingKeySameNames(h1, h2, candidates[1..]);
    }
  }

  /** Putting a candidate earlier in the list makes it win whenever present. */
  lemma FirstExistingKeyPriority(headers: seq<string>, candidates: seq<string>, i: int)
    requires 0 <= i < |candidates| && candidates[i] in headers
    ensures FirstExistingKey(headers, candidates).Some?
    ensures exists j :: 0 <= j <= i && FirstExistingKey(headers, candidates) == Some(candidates[j])
  {
    var r := FirstExistingKey(headers, candidates);
    var k :| IsFirstPresent(headers, candidates, k) && candidates[k] == r.value;
    assert k <= i;
  }
}
