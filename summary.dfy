/**
 * The change summary of one fund between two snapshots: `getSummaryForETF` of
 * scripts/build_latest.js.
 *
 * Each snapshot's rows are keyed by ticker (a repeated ticker keeps its last row). Every
 * ticker of either snapshot is then classified, in the iteration order of
 * `new Set([...Object.keys(today), ...Object.keys(prev)])`:
 *
 *   - only today: newly included, with today's name and value;
 *   - only previously: newly excluded, with the previous name and value;
 *   - in both, with both values present: a buy when `today - prev >= threshold`, else a
 *     sell when `today - prev <= -threshold`, each carrying today's name and the change.
 *
 * Finally the four lists are sorted (stably): inclusions and exclusions by name under the
 * Korean collation, buys by decreasing change, sells by increasing change.
 *
 * JavaScript numbers are modelled as `real`. In `'shares'` mode every value is an integer
 * read by `parseQuantity`; in any other mode the value is `parseFloat` of the weight
 * column, which is a parameter here.
 */
module Summary {

  import opened Wrappers
  import opened JsString
  import opened Sorting
  import opened JsObject
  import opened Quantity

  /** A snapshot row `[ticker, name, quantity, weight]`; the ticker and the name are
      always there. */
  type Row = r: seq<string> | |r| >= 2 witness ["", ""]

  /** `row[i]`, with `None` for `undefined` past the end of the row. */
  function Cell(row: seq<string>, i: nat): Option<string>
  {
    if i < |row| then Some(row[i]) else None
  }

  /** The column a mode reads: the quantity in `'shares'` mode, otherwise the weight. */
  function ValueIndex(mode: string): (i: nat)
    ensures i == 2 <==> mode == "shares"
    ensures i == 2 || i == 3
  {
    if mode == "shares" then 2 else 3
  }

  /** The value of a row in a mode: `parseQuantity` of the quantity column in `'shares'`
      mode, otherwise `parseFloat` of the weight column with NaN read as missing. */
  function ValueOf(row: Row, mode: string, parseFloat: string -> Option<real>): (v: Option<real>)
    ensures mode == "shares" ==> (v.None? <==> ParseQuantity(Cell(row, 2)).None?)
    ensures mode == "shares" && v.Some? ==> v.value == ParseQuantity(Cell(row, 2)).value as real
    ensures mode != "shares" && |row| <= 3 ==> v.None?
    ensures mode != "shares" && |row| > 3 ==> v == parseFloat(row[3])
  {
    var cell := Cell(row, ValueIndex(mode));
    if mode == "shares" then
      match ParseQuantity(cell)
      case None => None
      case Some(n) => Some(n as real)
    else
      match cell
      case None => None
      case Some(text) => parseFloat(text)
  }

  /** What the summary remembers of a row: its name and its value. */
  datatype Entry = Entry(name: string, value: Option<real>)

  /** An inclusion or an exclusion: `[ticker, name, value]`. */
  datatype Listing = Listing(ticker: string, name: string, value: Option<real>)

  /** A buy or a sell: `[ticker, name, change]`. */
  datatype Move = Move(ticker: string, name: string, delta: real)

  /** `{ newIn, newOut, buys, sells }`. */
  datatype Summary = Summary(newIn: seq<Listing>, newOut: seq<Listing>, buys: seq<Move>, sells: seq<Move>)

  function EntryOf(row: Row, mode: string, parseFloat: string -> Option<real>): Entry
  {
    Entry(row[1], ValueOf(row, mode, parseFloat))
  }

  // ----- the ticker-keyed tables -----

  /** The table the `forEach` over `rows` fills in: one entry per ticker, keyed in the
      order the tickers first occur. */
  function Fill(rows: seq<Row>, mode: string, parseFloat: string -> Option<real>): (t: Object<Entry>)
    ensures Valid(t)
    ensures forall k :: k in t.entries <==> exists i :: 0 <= i < |rows| && rows[i][0] == k
  {
    if rows == [] then Empty()
    else
      var last := rows[|rows| - 1];
      var t := Put(Fill(rows[..|rows| - 1], mode, parseFloat), last[0], EntryOf(last, mode, parseFloat));
      assert forall i :: 0 <= i < |rows| - 1 ==> rows[..|rows| - 1][i] == rows[i];
      t
  }

  /** The table of a row list; a `null` list leaves the table empty. */
  function TableOf(rows: Option<seq<Row>>, mode: string, parseFloat: string -> Option<real>): Object<Entry>
  {
    match rows
    case None => Empty()
    case Some(r) => Fill(r, mode, parseFloat)
  }

  /** A repeated ticker keeps its LAST row. */
  lemma {:induction false} FillLastWins(rows: seq<Row>, mode: string, parseFloat: string -> Option<real>, i: nat)
    requires i < |rows|
    requires forall j :: i < j < |rows| ==> rows[j][0] != rows[i][0]
    ensures rows[i][0] in Fill(rows, mode, parseFloat).entries
    ensures Fill(rows, mode, parseFloat).entries[rows[i][0]] == EntryOf(rows[i], mode, parseFloat)
  {
    if i < |rows| - 1 {
      var front := rows[..|rows| - 1];
      assert front[i] == rows[i];
      forall j | i < j < |front| ensures front[j][0] != front[i][0] {
        assert front[j] == rows[j];
      }
      FillLastWins(front, mode, parseFloat, i);
    }
  }

  /** A `null` row list is read exactly like an empty one. */
  lemma {:induction false} NullRowsAsEmpty(mode: string, parseFloat: string -> Option<real>)
    ensures TableOf(None, mode, parseFloat) == TableOf(Some([]), mode, parseFloat)
    ensures TableOf(None, mode, parseFloat).entries == map[]
  {
  }

  // ----- classification -----

  /** The tickers in the order `allTickers.forEach` visits them. */
  function Tickers(today: Object<Entry>, prev: Object<Entry>): seq<string>
  {
    Dedup(Keys(today) + Keys(prev))
  }

  predicate IsNewIn(k: string, today: Object<Entry>, prev: Object<Entry>)
  {
    k in today.entries && k !in prev.entries
  }

  predicate IsNewOut(k: string, today: Object<Entry>, prev: Object<Entry>)
  {
    k !in today.entries && k in prev.entries
  }

  /** The change of a ticker present on both dates with both values present. */
  function Delta(k: string, today: Object<Entry>, prev: Object<Entry>): Option<real>
  {
    if k in today.entries && k in prev.entries
       && today.entries[k].value.Some? && prev.entries[k].value.Some?
    then Some(today.entries[k].value.value - prev.entries[k].value.value)
    else None
  }

  /** A buy: the change reaches the threshold (inclusive). */
  predicate IsBuy(k: string, today: Object<Entry>, prev: Object<Entry>, threshold: real)
  {
    Delta(k, today, prev).Some? && Delta(k, today, prev).value >= threshold
  }

  /** A sell: not a buy, and the change reaches minus the threshold (inclusive). */
  predicate IsSell(k: string, today: Object<Entry>, prev: Object<Entry>, threshold: real)
  {
    && Delta(k, today, prev).Some?
    && !(Delta(k, today, prev).value >= threshold)
    && Delta(k, today, prev).value <= -threshold
  }

  function NewInItem(k: string, today: Object<Entry>): Listing
    requires k in today.entries
  {
    Listing(k, today.entries[k].name, today.entries[k].value)
  }

  function NewOutItem(k: string, prev: Object<Entry>): Listing
    requires k in prev.entries
  {
    Listing(k, prev.entries[k].name, prev.entries[k].value)
  }

  function MoveItem(k: string, today: Object<Entry>, prev: Object<Entry>): Move
    requires Delta(k, today, prev).Some?
  {
    Move(k, today.entries[k].name, Delta(k, today, prev).value)
  }

  /** One visit of the `forEach` callback: the entry `k` adds to the four lists. */
  function Step(acc: Summary, k: string, today: Object<Entry>, prev: Object<Entry>, threshold: real): Summary
  {
    var inToday := k in today.entries;
    var inPrev := k in prev.entries;
    if inToday && !inPrev then
      acc.(newIn := acc.newIn + [Listing(k, today.entries[k].name, today.entries[k].value)])
    else if !inToday && inPrev then
      acc.(newOut := acc.newOut + [Listing(k, prev.entries[k].name, prev.entries[k].value)])
    else if inToday && inPrev then
      var tv := today.entries[k].value;
      var pv := prev.entries[k].value;
      if tv.None? || pv.None? then acc
      else
        var delta := tv.value - pv.value;
        if delta >= threshold then acc.(buys := acc.buys + [Move(k, today.entries[k].name, delta)])
        else if delta <= -threshold then acc.(sells := acc.sells + [Move(k, today.entries[k].name, delta)])
        else acc
    else acc
  }

  /** The four lists, unsorted, after visiting `tickers` in order. */
  function Collect(tickers: seq<string>, today: Object<Entry>, prev: Object<Entry>, threshold: real): Summary
  {
    if tickers == [] then Summary([], [], [], [])
    else Step(Collect(tickers[..|tickers| - 1], today, prev, threshold), tickers[|tickers| - 1], today, prev, threshold)
  }

  // ----- ordering -----

  /** Listings ordered by name under Korean collation, as a `before` relation; `collate(x, y)`
      says that `x` sorts no later than `y`. */
  function ByName(collate: (string, string) -> bool): (Listing, Listing) -> bool
  {
    (a: Listing, b: Listing) => collate(a.name, b.name)
  }

  /** `(a, b) => b[2] - a[2]`: larger changes first. */
  function ByDeltaDescending(): (Move, Move) -> bool
  {
    (a: Move, b: Move) => b.delta - a.delta <= 0.0
  }

  /** `(a, b) => a[2] - b[2]`: smaller changes first. */
  function ByDeltaAscending(): (Move, Move) -> bool
  {
    (a: Move, b: Move) => a.delta - b.delta <= 0.0
  }

  function SortLists(raw: Summary, collate: (string, string) -> bool): Summary
  {
    Summary(Sort(raw.newIn, ByName(collate)), Sort(raw.newOut, ByName(collate)),
            Sort(raw.buys, ByDeltaDescending()), Sort(raw.sells, ByDeltaAscending()))
  }

  /** The four lists before sorting. */
  function Unsorted(todayRows: Option<seq<Row>>, prevRows: Option<seq<Row>>, mode: string, threshold: real,
                    parseFloat: string -> Option<real>): Summary
  {
    var today := TableOf(todayRows, mode, parseFloat);
    var prev := TableOf(prevRows, mode, parseFloat);
    Collect(Tickers(today, prev), today, prev, threshold)
  }

  /** `getSummaryForETF(todayRows, prevRows, mode, threshold)`. */
  function GetSummary(todayRows: Option<seq<Row>>, prevRows: Option<seq<Row>>, mode: string, threshold: real,
                      parseFloat: string -> Option<real>, collate: (string, string) -> bool): Summary
  {
    SortLists(Unsorted(todayRows, prevRows, mode, threshold, parseFloat), collate)
  }

  // ----- properties -----

  /** Each ticker occurs at most once in a list of inclusions or exclusions. */
  predicate UniqueListings(s: seq<Listing>)
  {
    forall i, j :: 0 <= i < j < |s| ==> s[i].ticker != s[j].ticker
  }

  /** Each ticker occurs at most once in a list of buys or sells. */
  predicate UniqueMoves(s: seq<Move>)
  {
    forall i, j :: 0 <= i < j < |s| ==> s[i].ticker != s[j].ticker
  }

  /** Splitting off the last of a list of distinct tickers. */
  lemma {:induction false} SplitLast(tickers: seq<string>)
    requires Distinct(tickers) && tickers != []
    ensures var front := tickers[..|tickers| - 1];
      && Distinct(front) && tickers[|tickers| - 1] !in front
      && forall t :: t in tickers <==> t in front || t == tickers[|tickers| - 1]
  {
    var front, k := tickers[..|tickers| - 1], tickers[|tickers| - 1];
    forall i, j | 0 <= i < j < |front| ensures front[i] != front[j] {
      assert front[i] == tickers[i] && front[j] == tickers[j];
    }
    assert tickers == front + [k];
  }

  /** The inclusions collected: exactly the visited tickers found only today, each once,
      with today's name and value. */
  lemma {:induction false} CollectNewIn(tickers: seq<string>, today: Object<Entry>, prev: Object<Entry>, threshold: real)
    requires Distinct(tickers)
    ensures var c := Collect(tickers, today, prev, threshold);
      && (forall x :: x in c.newIn <==> x.ticker in tickers && IsNewIn(x.ticker, today, prev) && x == NewInItem(x.ticker, today))
      && UniqueListings(c.newIn)
  {
    if tickers != [] {
      SplitLast(tickers);
      CollectNewIn(tickers[..|tickers| - 1], today, prev, threshold);
    }
  }

  /** The exclusions collected: exactly the visited tickers found only previously, each
      once, with the previous name and value. */
  lemma {:induction false} CollectNewOut(tickers: seq<string>, today: Object<Entry>, prev: Object<Entry>, threshold: real)
    requires Distinct(tickers)
    ensures var c := Collect(tickers, today, prev, threshold);
      && (forall x :: x in c.newOut <==> x.ticker in tickers && IsNewOut(x.ticker, today, prev) && x == NewOutItem(x.ticker, prev))
      && UniqueListings(c.newOut)
  {
    if tickers != [] {
      SplitLast(tickers);
      CollectNewOut(tickers[..|tickers| - 1], today, prev, threshold);
    }
  }

  /** The buys collected: exactly the visited tickers whose change reaches the threshold,
      each once, with today's name and the change. */
  lemma {:induction false} CollectBuys(tickers: seq<string>, today: Object<Entry>, prev: Object<Entry>, threshold: real)
    requires Distinct(tickers)
    ensures var c := Collect(tickers, today, prev, threshold);
      && (forall x :: x in c.buys <==> x.ticker in tickers && IsBuy(x.ticker, today, prev, threshold) && x == MoveItem(x.ticker, today, prev))
      && UniqueMoves(c.buys)
  {
    if tickers != [] {
      SplitLast(tickers);
      CollectBuys(tickers[..|tickers| - 1], today, prev, threshold);
    }
  }

  /** The sells collected: exactly the visited tickers that are no buy and whose change
      reaches minus the threshold, each once, with today's name and the change. */
  lemma {:induction false} CollectSells(tickers: seq<string>, today: Object<Entry>, prev: Object<Entry>, threshold: real)
    requires Distinct(tickers)
    ensures var c := Collect(tickers, today, prev, threshold);
      && (forall x :: x in c.sells <==> x.ticker in tickers && IsSell(x.ticker, today, prev, threshold) && x == MoveItem(x.ticker, today, prev))
      && UniqueMoves(c.sells)
  {
    if tickers != [] {
      SplitLast(tickers);
      CollectSells(tickers[..|tickers| - 1], today, prev, threshold);
    }
  }

  /** A permutation of a list whose elements have distinct keys has distinct keys. */
  lemma {:induction false} UniqueKeysPermutation<T>(a: seq<T>, b: seq<T>, key: T -> string)
    requires multiset(a) == multiset(b)
    requires forall i, j :: 0 <= i < j < |a| ==> key(a[i]) != key(a[j])
    ensures forall i, j :: 0 <= i < j < |b| ==> key(b[i]) != key(b[j])
  {
    assert Distinct(a) by {
      forall i, j | 0 <= i < j < |a| ensures a[i] != a[j] {
        assert key(a[i]) != key(a[j]);
      }
    }
    DistinctPermutation(a, b);
    forall i, j | 0 <= i < j < |b| ensures key(b[i]) != key(b[j]) {
      assert b[i] in multiset(a) && b[j] in multiset(a);
      var p :| 0 <= p < |a| && a[p] == b[i];
      var q :| 0 <= q < |a| && a[q] == b[j];
      assert p != q;
      if p < q {
        assert key(a[p]) != key(a[q]);
      } else {
        assert key(a[q]) != key(a[p]);
      }
    }
  }

  function ListingTicker(x: Listing): string { x.ticker }

  function MoveTicker(x: Move): string { x.ticker }

  /** The tickers visited are exactly the tickers of either table, each once. */
  lemma {:induction false} TickersOfTables(today: Object<Entry>, prev: Object<Entry>)
    requires Valid(today) && Valid(prev)
    ensures Distinct(Tickers(today, prev))
    ensures forall k :: k in Tickers(today, prev) <==> k in today.entries || k in prev.entries
  {
    KeysOfValid(today);
    KeysOfValid(prev);
    var all := Keys(today) + Keys(prev);
    forall k ensures k in Tickers(today, prev) <==> k in all {
      if k in all {
        var i :| 0 <= i < |all| && all[i] == k;
      }
      if k in Tickers(today, prev) {
        var i :| 0 <= i < |Tickers(today, prev)| && Tickers(today, prev)[i] == k;
      }
    }
  }

  /** The table of any row list is valid. */
  lemma {:induction false} TableValid(rows: Option<seq<Row>>, mode: string, parseFloat: string -> Option<real>)
    ensures Valid(TableOf(rows, mode, parseFloat))
  {
  }

  /** The tables of any two row lists are valid and the tickers visited are distinct,
      exactly the tickers of either table. */
  lemma {:induction false} TablesTickers(todayRows: Option<seq<Row>>, prevRows: Option<seq<Row>>, mode: string,
                                         parseFloat: string -> Option<real>)
    ensures Valid(TableOf(todayRows, mode, parseFloat)) && Valid(TableOf(prevRows, mode, parseFloat))
    ensures Distinct(Tickers(TableOf(todayRows, mode, parseFloat), TableOf(prevRows, mode, parseFloat)))
  {
    TableValid(todayRows, mode, parseFloat);
    TableValid(prevRows, mode, parseFloat);
    TickersOfTables(TableOf(todayRows, mode, parseFloat), TableOf(prevRows, mode, parseFloat));
  }

  lemma {:induction false} ClassifiedNewIn(todayRows: Option<seq<Row>>, prevRows: Option<seq<Row>>, mode: string,
                                           threshold: real, parseFloat: string -> Option<real>,
                                           collate: (string, string) -> bool)
    ensures var today := TableOf(todayRows, mode, parseFloat);
            var prev := TableOf(prevRows, mode, parseFloat);
            var s := GetSummary(todayRows, prevRows, mode, threshold, parseFloat, collate);
      && (forall x :: x in s.newIn <==> IsNewIn(x.ticker, today, prev) && x == NewInItem(x.ticker, today))
      && UniqueListings(s.newIn)
  {
    var today := TableOf(todayRows, mode, parseFloat);
    var prev := TableOf(prevRows, mode, parseFloat);
    var raw := Unsorted(todayRows, prevRows, mode, threshold, parseFloat);
    TablesTickers(todayRows, prevRows, mode, parseFloat);
    TickersOfTables(today, prev);
    CollectNewIn(Tickers(today, prev), today, prev, threshold);
    SortMembers(raw.newIn, ByName(collate));
    UniqueKeysPermutation(raw.newIn, Sort(raw.newIn, ByName(collate)), ListingTicker);
  }

  lemma {:induction false} ClassifiedNewOut(todayRows: Option<seq<Row>>, prevRows: Option<seq<Row>>, mode: string,
                                            threshold: real, parseFloat: string -> Option<real>,
                                            collate: (string, string) -> bool)
    ensures var today := TableOf(todayRows, mode, parseFloat);
            var prev := TableOf(prevRows, mode, parseFloat);
            var s := GetSummary(todayRows, prevRows, mode, threshold, parseFloat, collate);
      && (forall x :: x in s.newOut <==> IsNewOut(x.ticker, today, prev) && x == NewOutItem(x.ticker, prev))
      && UniqueListings(s.newOut)
  {
    var today := TableOf(todayRows, mode, parseFloat);
    var prev := TableOf(prevRows, mode, parseFloat);
    var raw := Unsorted(todayRows, prevRows, mode, threshold, parseFloat);
    TablesTickers(todayRows, prevRows, mode, parseFloat);
    TickersOfTables(today, prev);
    CollectNewOut(Tickers(today, prev), today, prev, threshold);
    SortMembers(raw.newOut, ByName(collate));
    UniqueKeysPermutation(raw.newOut, Sort(raw.newOut, ByName(collate)), ListingTicker);
  }

  lemma {:induction false} ClassifiedBuys(todayRows: Option<seq<Row>>, prevRows: Option<seq<Row>>, mode: string,
                                          threshold: real, parseFloat: string -> Option<real>,
                                          collate: (string, string) -> bool)
    ensures var today := TableOf(todayRows, mode, parseFloat);
            var prev := TableOf(prevRows, mode, parseFloat);
            var s := GetSummary(todayRows, prevRows, mode, threshold, parseFloat, collate);
      && (forall x :: x in s.buys <==> IsBuy(x.ticker, today, prev, threshold) && x == MoveItem(x.ticker, today, prev))
      && UniqueMoves(s.buys)
  {
    var today := TableOf(todayRows, mode, parseFloat);
    var prev := TableOf(prevRows, mode, parseFloat);
    var raw := Unsorted(todayRows, prevRows, mode, threshold, parseFloat);
    TablesTickers(todayRows, prevRows, mode, parseFloat);
    TickersOfTables(today, prev);
    CollectBuys(Tickers(today, prev), today, prev, threshold);
    SortMembers(raw.buys, ByDeltaDescending());
    UniqueKeysPermutation(raw.buys, Sort(raw.buys, ByDeltaDescending()), MoveTicker);
  }

  lemma {:induction false} ClassifiedSells(todayRows: Option<seq<Row>>, prevRows: Option<seq<Row>>, mode: string,
                                           threshold: real, parseFloat: string -> Option<real>,
                                           collate: (string, string) -> bool)
    ensures var today := TableOf(todayRows, mode, parseFloat);
            var prev := TableOf(prevRows, mode, parseFloat);
            var s := GetSummary(todayRows, prevRows, mode, threshold, parseFloat, collate);
      && (forall x :: x in s.sells <==> IsSell(x.ticker, today, prev, threshold) && x == MoveItem(x.ticker, today, prev))
      && UniqueMoves(s.sells)
  {
    var today := TableOf(todayRows, mode, parseFloat);
    var prev := TableOf(prevRows, mode, parseFloat);
    var raw := Unsorted(todayRows, prevRows, mode, threshold, parseFloat);
    TablesTickers(todayRows, prevRows, mode, parseFloat);
    TickersOfTables(today, prev);
    CollectSells(Tickers(today, prev), today, prev, threshold);
    SortMembers(raw.sells, ByDeltaAscending());
    UniqueKeysPermutation(raw.sells, Sort(raw.sells, ByDeltaAscending()), MoveTicker);
  }

  /** Classification: the summary lists exactly the tickers of each class, with the entry
      that class prescribes (today's name and value for an inclusion, even a missing value;
      the previous ones for an exclusion; today's name and the change for a buy or a
      sell), and no ticker twice in one list. */
  lemma {:induction false} SummaryClassification(todayRows: Option<seq<Row>>, prevRows: Option<seq<Row>>, mode: string,
                                                  threshold: real, parseFloat: string -> Option<real>,
                                                  collate: (string, string) -> bool)
    ensures var today := TableOf(todayRows, mode, parseFloat);
            var prev := TableOf(prevRows, mode, parseFloat);
            var s := GetSummary(todayRows, prevRows, mode, threshold, parseFloat, collate);
      && (forall x :: x in s.newIn <==> IsNewIn(x.ticker, today, prev) && x == NewInItem(x.ticker, today))
      && (forall x :: x in s.newOut <==> IsNewOut(x.ticker, today, prev) && x == NewOutItem(x.ticker, prev))
      && (forall x :: x in s.buys <==> IsBuy(x.ticker, today, prev, threshold) && x == MoveItem(x.ticker, today, prev))
      && (forall x :: x in s.sells <==> IsSell(x.ticker, today, prev, threshold) && x == MoveItem(x.ticker, today, prev))
      && UniqueListings(s.newIn) && UniqueListings(s.newOut) && UniqueMoves(s.buys) && UniqueMoves(s.sells)
  {
    ClassifiedNewIn(todayRows, prevRows, mode, threshold, parseFloat, collate);
    ClassifiedNewOut(todayRows, prevRows, mode, threshold, parseFloat, collate);
    ClassifiedBuys(todayRows, prevRows, mode, threshold, parseFloat, collate);
    ClassifiedSells(todayRows, prevRows, mode, threshold, parseFloat, collate);
  }

  /** No ticker appears in two of the four lists. */
  lemma {:induction false} SummaryDisjoint(todayRows: Option<seq<Row>>, prevRows: Option<seq<Row>>, mode: string, threshold: real,
                        parseFloat: string -> Option<real>, collate: (string, string) -> bool)
    ensures var s := GetSummary(todayRows, prevRows, mode, threshold, parseFloat, collate);
      && (forall x, y :: x in s.newIn && y in s.newOut ==> x.ticker != y.ticker)
      && (forall x, y :: x in s.newIn && y in s.buys ==> x.ticker != y.ticker)
      && (forall x, y :: x in s.newIn && y in s.sells ==> x.ticker != y.ticker)
      && (forall x, y :: x in s.newOut && y in s.buys ==> x.ticker != y.ticker)
      && (forall x, y :: x in s.newOut && y in s.sells ==> x.ticker != y.ticker)
      && (forall x, y :: x in s.buys && y in s.sells ==> x.ticker != y.ticker)
  {
    SummaryClassification(todayRows, prevRows, mode, threshold, parseFloat, collate);
  }

  /** With no previous entries nothing is excluded, bought or sold. */
  lemma {:induction false} CollectWithoutPrevious(tickers: seq<string>, today: Object<Entry>, prev: Object<Entry>, threshold: real)
    requires prev.entries == map[]
    ensures var c := Collect(tickers, today, prev, threshold);
      c.newOut == [] && c.buys == [] && c.sells == []
  {
    if tickers != [] {
      CollectWithoutPrevious(tickers[..|tickers| - 1], today, prev, threshold);
    }
  }

  /** A fund without previous rows has every one of today's tickers newly included, and
      no exclusions, buys or sells. */
  lemma {:induction false} NoPreviousAllNew(todayRows: Option<seq<Row>>, mode: string, threshold: real,
                         parseFloat: string -> Option<real>, collate: (string, string) -> bool)
    ensures var today := TableOf(todayRows, mode, parseFloat);
            var s := GetSummary(todayRows, None, mode, threshold, parseFloat, collate);
      && (forall k :: k in today.entries ==> NewInItem(k, today) in s.newIn)
      && |s.newIn| == |today.entries|
      && s.newOut == [] && s.buys == [] && s.sells == []
  {
    var today := TableOf(todayRows, mode, parseFloat);
    var prev := TableOf(None, mode, parseFloat);
    var s := GetSummary(todayRows, None, mode, threshold, parseFloat, collate);
    SummaryClassification(todayRows, None, mode, threshold, parseFloat, collate);
    CollectWithoutPrevious(Tickers(today, prev), today, prev, threshold);
    forall k | k in today.entries ensures NewInItem(k, today) in s.newIn {
      assert IsNewIn(NewInItem(k, today).ticker, today, prev);
    }
    ListingsCount(s.newIn, today);
  }

  /** A list of inclusions with distinct tickers holding exactly one listing for each key of
      `today` has one element per key. */
  lemma {:induction false} ListingsCount(s: seq<Listing>, today: Object<Entry>)
    requires UniqueListings(s)
    requires forall x :: x in s ==> x.ticker in today.entries
    requires forall k :: k in today.entries ==> exists x :: x in s && x.ticker == k
    ensures |s| == |today.entries|
  {
    var t := TickersOf(s);
    assert Distinct(t);
    assert (set k | k in t) == today.entries.Keys by {
      forall k | k in today.entries ensures k in t {
        var x :| x in s && x.ticker == k;
        var i :| 0 <= i < |s| && s[i] == x;
        assert t[i] == k;
      }
    }
    DistinctCardinality(t);
  }

  function TickersOf(s: seq<Listing>): (t: seq<string>)
    ensures |t| == |s| && forall i :: 0 <= i < |s| ==> t[i] == s[i].ticker
  {
    if s == [] then [] else [s[0].ticker] + TickersOf(s[1..])
  }

  /** Larger-change-first and smaller-change-first are total preorders. */
  lemma DeltaOrders()
    ensures TotalPreorder(ByDeltaDescending()) && TotalPreorder(ByDeltaAscending())
  {
  }

  /** A collation that is a total preorder on names orders listings the same way. */
  lemma {:induction false} ByNameOrder(collate: (string, string) -> bool)
    requires TotalPreorder(collate)
    ensures TotalPreorder(ByName(collate))
  {
    var order := ByName(collate);
    forall a: Listing, b: Listing ensures order(a, b) || order(b, a) {
      assert collate(a.name, b.name) || collate(b.name, a.name);
    }
    forall a: Listing, b: Listing, c: Listing | order(a, b) && order(b, c) ensures order(a, c) {
      assert collate(a.name, b.name) && collate(b.name, c.name);
    }
  }

  /** Ordering: buys by non-increasing change, sells by non-decreasing change,
      inclusions and exclusions by name; each sorted list is a permutation of the list
      before sorting, and elements the comparator ties keep their order. */
  lemma {:induction false} SummaryOrdered(todayRows: Option<seq<Row>>, prevRows: Option<seq<Row>>, mode: string,
                                          threshold: real, parseFloat: string -> Option<real>,
                                          collate: (string, string) -> bool)
    requires TotalPreorder(collate)
    ensures var raw := Unsorted(todayRows, prevRows, mode, threshold, parseFloat);
            var s := GetSummary(todayRows, prevRows, mode, threshold, parseFloat, collate);
      && (forall i, j :: 0 <= i < j < |s.buys| ==> s.buys[i].delta >= s.buys[j].delta)
      && (forall i, j :: 0 <= i < j < |s.sells| ==> s.sells[i].delta <= s.sells[j].delta)
      && Sorted(s.newIn, ByName(collate)) && Sorted(s.newOut, ByName(collate))
      && multiset(s.newIn) == multiset(raw.newIn) && multiset(s.newOut) == multiset(raw.newOut)
      && multiset(s.buys) == multiset(raw.buys) && multiset(s.sells) == multiset(raw.sells)
      && (forall y :: Tied(s.newIn, ByName(collate), y) == Tied(raw.newIn, ByName(collate), y))
      && (forall y :: Tied(s.newOut, ByName(collate), y) == Tied(raw.newOut, ByName(collate), y))
      && (forall y :: Tied(s.buys, ByDeltaDescending(), y) == Tied(raw.buys, ByDeltaDescending(), y))
      && (forall y :: Tied(s.sells, ByDeltaAscending(), y) == Tied(raw.sells, ByDeltaAscending(), y))
  {
    var raw := Unsorted(todayRows, prevRows, mode, threshold, parseFloat);
    DeltaOrders();
    ByNameOrder(collate);
    SortSorted(raw.buys, ByDeltaDescending());
    SortSorted(raw.sells, ByDeltaAscending());
    SortSorted(raw.newIn, ByName(collate));
    SortSorted(raw.newOut, ByName(collate));
    forall y ensures Tied(Sort(raw.newIn, ByName(collate)), ByName(collate), y) == Tied(raw.newIn, ByName(collate), y) {
      SortStable(raw.newIn, ByName(collate), y);
    }
    forall y ensures Tied(Sort(raw.newOut, ByName(collate)), ByName(collate), y) == Tied(raw.newOut, ByName(collate), y) {
      SortStable(raw.newOut, ByName(collate), y);
    }
    forall y ensures Tied(Sort(raw.buys, ByDeltaDescending()), ByDeltaDescending(), y) == Tied(raw.buys, ByDeltaDescending(), y) {
      SortStable(raw.buys, ByDeltaDescending(), y);
    }
    forall y ensures Tied(Sort(raw.sells, ByDeltaAscending()), ByDeltaAscending(), y) == Tied(raw.sells, ByDeltaAscending(), y) {
      SortStable(raw.sells, ByDeltaAscending(), y);
    }
  }

  // ----- the imperative procedure -----

  /** The `forEach` that fills `todayMap` or `prevMap`. */
  method BuildTable(rows: Option<seq<Row>>, mode: string, parseFloat: string -> Option<real>)
    returns (t: Object<Entry>)
    ensures t == TableOf(rows, mode, parseFloat)
  {
    t := Empty();
    if rows.Some? {
      var r := rows.value;
      var i := 0;
      while i < |r|
        invariant 0 <= i <= |r|
        invariant t == Fill(r[..i], mode, parseFloat)
      {
        assert r[..i + 1][..i] == r[..i];
        t := Put(t, r[i][0], EntryOf(r[i], mode, parseFloat));
        i := i + 1;
      }
      assert r[..i] == r;
    }
  }

  /** `allTickers.forEach(…)`: visit the tickers in order, pushing each onto the list it
      belongs to. */
  method Classify(allTickers: seq<string>, todayMap: Object<Entry>, prevMap: Object<Entry>, threshold: real)
    returns (raw: Summary)
    ensures raw == Collect(allTickers, todayMap, prevMap, threshold)
  {
    var newIn: seq<Listing>, newOut: seq<Listing>, buys: seq<Move>, sells: seq<Move> := [], [], [], [];
    var i := 0;
    while i < |allTickers|
      invariant 0 <= i <= |allTickers|
      invariant Summary(newIn, newOut, buys, sells) == Collect(allTickers[..i], todayMap, prevMap, threshold)
    {
      ghost var acc := Summary(newIn, newOut, buys, sells);
      var ticker := allTickers[i];
      var inToday := ticker in todayMap.entries;
      var inPrev := ticker in prevMap.entries;
      if inToday && !inPrev {
        newIn := newIn + [Listing(ticker, todayMap.entries[ticker].name, todayMap.entries[ticker].value)];
      } else if !inToday && inPrev {
        newOut := newOut + [Listing(ticker, prevMap.entries[ticker].name, prevMap.entries[ticker].value)];
      } else if inToday && inPrev {
        var tv := todayMap.entries[ticker].value;
        var pv := prevMap.entries[ticker].value;
        if tv.Some? && pv.Some? {
          var delta := tv.value - pv.value;
          if delta >= threshold {
            buys := buys + [Move(ticker, todayMap.entries[ticker].name, delta)];
          } else if delta <= -threshold {
            sells := sells + [Move(ticker, todayMap.entries[ticker].name, delta)];
          }
        }
      }
      assert Summary(newIn, newOut, buys, sells) == Step(acc, ticker, todayMap, prevMap, threshold);
      assert allTickers[..i + 1][..i] == allTickers[..i];
      i := i + 1;
    }
    assert allTickers[..i] == allTickers;
    raw := Summary(newIn, newOut, buys, sells);
  }

  /** `getSummaryForETF`: fill the two tables, classify every ticker of their union into
      the four lists, then sort each list in place. */
  method GetSummaryForEtf(todayRows: Option<seq<Row>>, prevRows: Option<seq<Row>>, mode: string, threshold: real,
                          parseFloat: string -> Option<real>, collate: (string, string) -> bool)
    returns (s: Summary)
    ensures s == GetSummary(todayRows, prevRows, mode, threshold, parseFloat, collate)
  {
    var todayMap := BuildTable(todayRows, mode, parseFloat);
    var prevMap := BuildTable(prevRows, mode, parseFloat);
    var allTickers := Dedup(Keys(todayMap) + Keys(prevMap));
    var raw := Classify(allTickers, todayMap, prevMap, threshold);
    s := SortLists(raw, collate);
  }
}
