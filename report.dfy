/**
 * The reports written by `main` of scripts/build_latest.js: the change summaries of all
 * configured funds between the two newest snapshots (`buildSummaries`), and the metadata
 * record of last_updated.json.
 */
module Report {

  import opened Wrappers
  import opened JsString
  import opened JsObject
  import opened Summary
  import opened History

  /** Minimum weight change, in percentage points, that counts as a buy or a sell. */
  const WEIGHT_THRESHOLD: real := 0.5

  /** Minimum change in the number of shares that counts as a buy or a sell. */
  const SHARES_THRESHOLD: real := 10.0

  /** The fund configuration: the names of `ETF_LIST` in order, and the global and domestic
      groups. */
  datatype Config = Config(etfNames: seq<string>, globalEtfs: seq<string>, domesticEtfs: seq<string>)

  /** `{ latestDate, prevDate, mode, threshold, globalETFs, domesticETFs, summaries }`. */
  datatype SummaryReport = SummaryReport(
    latestDate: string, prevDate: string, mode: string, threshold: real,
    globalEtfs: seq<string>, domesticEtfs: seq<string>, summaries: Object<Summary>)

  /** The threshold of a mode. */
  function ThresholdOf(mode: string): (t: real)
    ensures t == if mode == "shares" then SHARES_THRESHOLD else WEIGHT_THRESHOLD
    ensures t > 0.0
  {
    if mode == "shares" then SHARES_THRESHOLD else WEIGHT_THRESHOLD
  }

  /** `doc[etfName] || null`: an array, even an empty one, is truthy. */
  function RowsOf(doc: Snapshot, etfName: string): Option<seq<Row>>
  {
    if etfName in doc.entries then Some(doc.entries[etfName]) else None
  }

  /** The loop over the fund names, each fund summarised by `summarise`: a fund without
      rows in the latest snapshot is skipped. */
  function FundMap(names: seq<string>, latest: Snapshot, summarise: string -> Summary): Object<Summary>
  {
    if names == [] then Empty()
    else
      var acc := FundMap(names[..|names| - 1], latest, summarise);
      var etfName := names[|names| - 1];
      if RowsOf(latest, etfName).None? then acc
      else Put(acc, etfName, summarise(etfName))
  }

  /** The summary of one fund: its latest rows against its previous rows. */
  function Summariser(latest: Snapshot, prev: Snapshot, mode: string, threshold: real,
                      parseFloat: string -> Option<real>, collate: (string, string) -> bool): string -> Summary
  {
    (etfName: string) => GetSummary(RowsOf(latest, etfName), RowsOf(prev, etfName), mode, threshold, parseFloat, collate)
  }

  /** The summaries of the configured funds present in the latest snapshot. */
  function FundSummaries(names: seq<string>, latest: Snapshot, prev: Snapshot, mode: string, threshold: real,
                         parseFloat: string -> Option<real>, collate: (string, string) -> bool): Object<Summary>
  {
    FundMap(names, latest, Summariser(latest, prev, mode, threshold, parseFloat, collate))
  }

  /** `buildSummaries(historyDir, mode)`: `None` (null) with fewer than two dates. */
  function SummariesOf(listing: Option<seq<string>>, files: map<string, Snapshot>, mode: string, config: Config,
                       parseFloat: string -> Option<real>, collate: (string, string) -> bool)
    : Result<Option<SummaryReport>, ReadError>
  {
    var dates := AvailableDates(listing);
    if |dates| < 2 then Ok(None)
    else
      var latestDate, prevDate := dates[0], dates[1];
      var threshold := ThresholdOf(mode);
      if FileOf(latestDate) !in files then Err(Unreadable(FileOf(latestDate)))
      else if FileOf(prevDate) !in files then Err(Unreadable(FileOf(prevDate)))
      else
        var summaries := FundSummaries(config.etfNames, files[FileOf(latestDate)], files[FileOf(prevDate)],
                                       mode, threshold, parseFloat, collate);
        Ok(Some(SummaryReport(latestDate, prevDate, mode, threshold, config.globalEtfs, config.domesticEtfs, summaries)))
  }

  // ----- properties -----

  /** The loop keeps exactly the names that have rows in the latest snapshot, each mapped
      to its summary. */
  lemma {:induction false} FundMapKeys(names: seq<string>, latest: Snapshot, summarise: string -> Summary)
    ensures Valid(FundMap(names, latest, summarise))
    ensures forall n :: n in FundMap(names, latest, summarise).entries <==> n in names && n in latest.entries
    ensures forall n :: n in FundMap(names, latest, summarise).entries ==>
              FundMap(names, latest, summarise).entries[n] == summarise(n)
  {
    if names != [] {
      var front, last := names[..|names| - 1], names[|names| - 1];
      assert forall n :: n in names <==> n in front || n == last by {
        assert names == front + [last];
      }
      FundMapKeys(front, latest, summarise);
    }
  }

  lemma {:induction false} FundMapStep(names: seq<string>, latest: Snapshot, summarise: string -> Summary, i: nat)
    requires i < |names|
    ensures FundMap(names[..i + 1], latest, summarise)
         == if RowsOf(latest, names[i]).None? then FundMap(names[..i], latest, summarise)
            else Put(FundMap(names[..i], latest, summarise), names[i], summarise(names[i]))
  {
    assert names[..i + 1][..i] == names[..i];
  }

  /** The summaries are keyed by exactly the configured funds that have rows in the latest
      snapshot, each holding the summary of its latest rows against its previous rows. */
  lemma {:induction false} FundSummariesKeys(names: seq<string>, latest: Snapshot, prev: Snapshot, mode: string,
                                             threshold: real, parseFloat: string -> Option<real>,
                                             collate: (string, string) -> bool)
    ensures var r := FundSummaries(names, latest, prev, mode, threshold, parseFloat, collate);
      && Valid(r)
      && (forall n :: n in r.entries <==> n in names && n in latest.entries)
      && (forall n :: n in r.entries ==>
            r.entries[n] == GetSummary(RowsOf(latest, n), RowsOf(prev, n), mode, threshold, parseFloat, collate))
  {
    FundMapKeys(names, latest, Summariser(latest, prev, mode, threshold, parseFloat, collate));
  }

  /** `buildSummaries` is null exactly when fewer than two dates exist; otherwise it
      compares the newest date with the one before it, reading both files, with the
      threshold of the mode, summarising every configured fund and passing the two
      groups of the configuration through. */
  lemma {:induction false} SummariesDates(listing: Option<seq<string>>, files: map<string, Snapshot>, mode: string, config: Config,
                       parseFloat: string -> Option<real>, collate: (string, string) -> bool)
    ensures var r := SummariesOf(listing, files, mode, config, parseFloat, collate);
            var dates := AvailableDates(listing);
      && (r == Ok(None) <==> |dates| < 2)
      && (|dates| >= 2 ==> (r.Ok? <==> FileOf(dates[0]) in files && FileOf(dates[1]) in files))
      && (r.Ok? && r.value.Some? ==>
            && r.value.value.latestDate == dates[0] && r.value.value.prevDate == dates[1]
            && AtMost(r.value.value.prevDate, r.value.value.latestDate)
            && r.value.value.threshold == (if mode == "shares" then 10.0 else 0.5)
            && r.value.value.mode == mode
            && r.value.value.globalEtfs == config.globalEtfs
            && r.value.value.domesticEtfs == config.domesticEtfs
            && r.value.value.summaries
                 == FundSummaries(config.etfNames, files[FileOf(dates[0])], files[FileOf(dates[1])],
                                  mode, ThresholdOf(mode), parseFloat, collate))
  {
    AvailableDatesNewestFirst(listing);
  }

  /** A configured fund that has rows in the latest snapshot but none in the previous one
      is summarised with all of its tickers newly included and nothing else. */
  lemma {:induction false} NewFundAllIncluded(names: seq<string>, latest: Snapshot, prev: Snapshot, mode: string, threshold: real,
                           parseFloat: string -> Option<real>, collate: (string, string) -> bool, etfName: string)
    requires etfName in names && etfName in latest.entries && etfName !in prev.entries
    ensures var r := FundSummaries(names, latest, prev, mode, threshold, parseFloat, collate);
            var today := TableOf(Some(latest.entries[etfName]), mode, parseFloat);
      && etfName in r.entries
      && (forall k :: k in today.entries ==> NewInItem(k, today) in r.entries[etfName].newIn)
      && |r.entries[etfName].newIn| == |today.entries|
      && r.entries[etfName].newOut == [] && r.entries[etfName].buys == [] && r.entries[etfName].sells == []
  {
    FundSummariesKeys(names, latest, prev, mode, threshold, parseFloat, collate);
    NoPreviousAllNew(Some(latest.entries[etfName]), mode, threshold, parseFloat, collate);
  }

  // ----- the imperative procedure -----

  /** `buildSummaries(historyDir, mode)`: read the two newest snapshots and summarise every
      configured fund present in the latest one. */
  method BuildSummaries(listing: Option<seq<string>>, files: map<string, Snapshot>, mode: string, config: Config,
                        parseFloat: string -> Option<real>, collate: (string, string) -> bool)
    returns (r: Result<Option<SummaryReport>, ReadError>)
    ensures r == SummariesOf(listing, files, mode, config, parseFloat, collate)
  {
    var dates := AvailableDates(listing);
    if |dates| < 2 {
      return Ok(None);
    }
    var latestDate, prevDate := dates[0], dates[1];
    var threshold := if mode == "shares" then SHARES_THRESHOLD else WEIGHT_THRESHOLD;
    if FileOf(latestDate) !in files {
      return Err(Unreadable(FileOf(latestDate)));
    }
    var latestData := files[FileOf(latestDate)];
    if FileOf(prevDate) !in files {
      return Err(Unreadable(FileOf(prevDate)));
    }
    var prevData := files[FileOf(prevDate)];
    var summaries := SummariseFunds(config.etfNames, latestData, prevData, mode, threshold, parseFloat, collate);
    return Ok(Some(SummaryReport(latestDate, prevDate, mode, threshold, config.globalEtfs, config.domesticEtfs, summaries)));
  }

  /** The loop of `buildSummaries` over `ETF_LIST`: every fund with rows in the latest
      snapshot gets the summary of its latest rows against its previous rows (or `null`). */
  method SummariseFunds(etfNames: seq<string>, latestData: Snapshot, prevData: Snapshot, mode: string, threshold: real,
                        parseFloat: string -> Option<real>, collate: (string, string) -> bool)
    returns (summaries: Object<Summary>)
    ensures summaries == FundSummaries(etfNames, latestData, prevData, mode, threshold, parseFloat, collate)
  {
    summaries := Empty();
    ghost var summarise := Summariser(latestData, prevData, mode, threshold, parseFloat, collate);
    var i := 0;
    while i < |etfNames|
      invariant 0 <= i <= |etfNames|
      invariant summaries == FundMap(etfNames[..i], latestData, summarise)
    {
      var etfName := etfNames[i];
      FundMapStep(etfNames, latestData, summarise, i);
      var todayRows := RowsOf(latestData, etfName);
      var prevRows := RowsOf(prevData, etfName);
      if todayRows.Some? {
        var s := GetSummaryForEtf(todayRows, prevRows, mode, threshold, parseFloat, collate);
        summaries := Put(summaries, etfName, s);
      }
      i := i + 1;
    }
    assert etfNames[..i] == etfNames;
  }

  // ----- last_updated.json -----

  /** A JSON property that may be a string, `null`, or `undefined` (left out when
      serialised). */
  datatype DateField = Date(value: string) | Null | Undefined

  /** `{ date, updated_at, etf_count, dates_available }`. */
  datatype Meta = Meta(date: DateField, updatedAt: string, etfCount: nat, datesAvailable: seq<string>)

  /** `dates[0]`, `undefined` for an empty list. */
  function FirstDate(dates: seq<string>): DateField
  {
    if dates == [] then Undefined else Date(dates[0])
  }

  /** The metadata record from the two window results; the time stamp is given. */
  function MetaOf(holdings: Option<MainData>, shares: Option<MainData>, updatedAt: string): Meta
  {
    var date := if holdings.Some? then FirstDate(holdings.value.dates)
                else if shares.Some? then FirstDate(shares.value.dates)
                else Null;
    Meta(date,
         updatedAt,
         if holdings.Some? then |Keys(holdings.value.data)| else 0,
         if holdings.Some? then holdings.value.dates else [])
  }

  /** The date of the metadata is the newest retained date of the holdings history, or of
      the shares history when there is no holdings history; it is `null` when neither
      exists, and `undefined` when the history it is taken from kept no date (the shares
      history is then not consulted). The fund count is the number of funds in the
      holdings history. */
  lemma {:induction false} MetaFields(holdings: Option<MainData>, shares: Option<MainData>, updatedAt: string)
    requires holdings.Some? ==> Descending(holdings.value.dates) && Valid(holdings.value.data)
    requires shares.Some? ==> Descending(shares.value.dates)
    ensures var m := MetaOf(holdings, shares, updatedAt);
            var source := if holdings.Some? then holdings else shares;
      && (m.date.Null? <==> holdings.None? && shares.None?)
      && (m.date.Undefined? <==> source.Some? && source.value.dates == [])
      && (m.date.Date? ==>
            && m.date.value in source.value.dates
            && forall d :: d in source.value.dates ==> AtMost(d, m.date.value))
      && m.etfCount == (if holdings.Some? then |holdings.value.data.entries| else 0)
      && m.datesAvailable == (if holdings.Some? then holdings.value.dates else [])
      && m.updatedAt == updatedAt
  {
    if holdings.Some? {
      KeysCount(holdings.value.data);
    }
    var m := MetaOf(holdings, shares, updatedAt);
    var source := if holdings.Some? then holdings else shares;
    if m.date.Date? {
      AtMostTotalOrder();
      forall d | d in source.value.dates ensures AtMost(d, m.date.value) {
        var i :| 0 <= i < |source.value.dates| && source.value.dates[i] == d;
        if i > 0 {
          assert AtMost(source.value.dates[i], source.value.dates[0]);
        }
      }
    }
  }

  /** With a holdings history whose dates are all older than the cutoff, the metadata
      date is `undefined` and no fund is counted, whatever the shares history holds. */
  lemma {:induction false} MetaAllHoldingsOld(listing: Option<seq<string>>, files: map<string, Snapshot>, cutoff: string,
                           shares: Option<MainData>, updatedAt: string)
    requires ValidFiles(files)
    requires |AvailableDates(listing)| > 0
    requires forall i :: 0 <= i < |AvailableDates(listing)| ==> Less(AvailableDates(listing)[i], cutoff)
    ensures MainDataOf(listing, files, cutoff).Ok?
    ensures MetaOf(MainDataOf(listing, files, cutoff).value, shares, updatedAt) == Meta(Undefined, updatedAt, 0, [])
  {
    MainDataAllOld(listing, files, cutoff);
    var h := MainData([], Empty<Object<seq<Row>>>());
    assert Keys(h.data) == [];
    assert MetaOf(Some(h), shares, updatedAt) == Meta(Undefined, updatedAt, 0, []);
  }
}
