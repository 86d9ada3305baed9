/** The remote fetcher: one search request per basin (HUC8 code), results
    concatenated in basin order, failed requests reported and skipped. */
module Fetch {
  import opened Options
  import opened Seqs
  import opened Occurrences

  /** The six basins the acquisition script queries. */
  const Huc8List: seq<string> :=
    ["03100202", "03100203", "03100204", "03100205", "03100206", "03100207"]

  const StatusOk := 200

  /** The response to the search request for one basin: its HTTP status and,
      when the body carries one, its `results` list. The network call is not
      modelled; a run supplies the response of every basin. */
  datatype Response = Response(status: int, results: Option<seq<RawRecord>>)

  /** What one response adds to the accumulated records: the `results` list
      of a successful response, empty when the body has none, nothing at all
      for any other status. */
  function Contribution(resp: Response): seq<RawRecord> {
    if resp.status == StatusOk then resp.results.GetOr([]) else []
  }

  /** All records, basin by basin in the order of `basins`. Every record of a
      successful response is there, and nothing else is. */
  function FetchAll(basins: seq<string>, respond: string -> Response): (rs: seq<RawRecord>)
    ensures forall b, x ::
              (b in basins && respond(b).status == StatusOk && respond(b).results.Some?
               && x in respond(b).results.value) ==> x in rs
    ensures forall x :: x in rs ==>
      exists b :: b in basins && respond(b).status == StatusOk
        && respond(b).results.Some? && x in respond(b).results.value
  {
    FlatMapMembers(basins, b => Contribution(respond(b)));
    FlatMap(basins, b => Contribution(respond(b)))
  }

  /** The basins whose request failed, in order: the ones the script reports. */
  function FailedBasins(basins: seq<string>, respond: string -> Response): (failed: seq<string>)
    ensures forall b :: b in failed <==> b in basins && respond(b).status != StatusOk
  {
    FilterFacts(basins, b => respond(b).status != StatusOk);
    Filter(basins, b => respond(b).status != StatusOk)
  }

  /** Fetching a list in two parts and concatenating is fetching the whole
      list: the output is ordered by basin. */
  lemma FetchAppend(a: seq<string>, b: seq<string>, respond: string -> Response)
    ensures FetchAll(a + b, respond) == FetchAll(a, respond) + FetchAll(b, respond)
  {
    FlatMapAppend(a, b, b => Contribution(respond(b)));
  }

  /** A basin whose request fails contributes nothing and does not stop the
      basins after it. */
  lemma {:induction false} FetchSkipsFailure(a: seq<string>, failed: string, b: seq<string>,
                                             respond: string -> Response)
    requires respond(failed).status != StatusOk
    ensures FetchAll(a + [failed] + b, respond) == FetchAll(a, respond) + FetchAll(b, respond)
  {
    FetchAppend(a + [failed], b, respond);
    FetchAppend(a, [failed], respond);
    FlatMapSingle(failed, b => Contribution(respond(b)));
  }

  /** A successful response whose body lacks `results` counts as an empty
      list. */
  lemma {:induction false} FetchMissingResults(a: seq<string>, basin: string, b: seq<string>,
                                               respond: string -> Response)
    requires respond(basin).status == StatusOk && respond(basin).results.None?
    ensures FetchAll(a + [basin] + b, respond) == FetchAll(a, respond) + FetchAll(b, respond)
  {
    FetchAppend(a + [basin], b, respond);
    FetchAppend(a, [basin], respond);
    FlatMapSingle(basin, b => Contribution(respond(b)));
  }

  /** Nothing is fetched exactly when no basin contributes a record. */
  lemma {:induction false} FetchEmptyIff(basins: seq<string>, respond: string -> Response)
    ensures FetchAll(basins, respond) == [] <==> forall b :: b in basins ==> Contribution(respond(b)) == []
    decreases |basins|
  {
    if basins != [] {
      FetchEmptyIff(basins[1..], respond);
      assert FetchAll(basins, respond)
             == Contribution(respond(basins[0])) + FetchAll(basins[1..], respond);
      assert forall b :: b in basins <==> b == basins[0] || b in basins[1..];
    }
  }

  /** One more basin appends its contribution, or its name to the failures. */
  lemma FetchStep(basins: seq<string>, i: nat, respond: string -> Response)
    requires i < |basins|
    ensures FetchAll(basins[..i + 1], respond)
            == FetchAll(basins[..i], respond) + Contribution(respond(basins[i]))
    ensures FailedBasins(basins[..i + 1], respond)
            == FailedBasins(basins[..i], respond)
               + (if respond(basins[i]).status != StatusOk then [basins[i]] else [])
  {
    assert basins[..i + 1] == basins[..i] + [basins[i]];
    FetchAppend(basins[..i], [basins[i]], respond);
    FlatMapSingle(basins[i], b => Contribution(respond(b)));
    FilterAppend(basins[..i], [basins[i]], b => respond(b).status != StatusOk);
    FilterSingle(basins[i], b => respond(b).status != StatusOk);
  }

  /** The fetch loop as the script runs it: `combined` grows by the results of
      each successful basin in turn and `failed` collects the basins it
      reports as failed. */
  method FetchLoop(basins: seq<string>, respond: string -> Response)
    returns (combined: seq<RawRecord>, failed: seq<string>)
    ensures combined == FetchAll(basins, respond)
    ensures failed == FailedBasins(basins, respond)
  {
    combined := [];
    failed := [];
    for i := 0 to |basins|
      invariant combined == FetchAll(basins[..i], respond)
      invariant failed == FailedBasins(basins[..i], respond)
    {
      var response := respond(basins[i]);
      if response.status == StatusOk {
        combined := combined + response.results.GetOr([]);
      } else {
        failed := failed + [basins[i]];
      }
      FetchStep(basins, i, respond);
    }
    assert basins[..|basins|] == basins;
  }
}
