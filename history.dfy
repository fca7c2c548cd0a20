/**
 * The history directory and the window of snapshots kept for the front end:
 * `getAvailableDates` and `buildMainData` of scripts/build_latest.js.
 *
 * A directory listing is the sequence of its file names (`None` when the directory does
 * not exist); the snapshot files are the already-parsed JSON objects, keyed by file name,
 * each mapping a fund name to its rows. Reading a file that is not there is the error
 * `Unreadable`, where the script would throw.
 */
module History {

  import opened Wrappers
  import opened JsString
  import opened Sorting
  import opened JsObject
  import opened Summary

  // ----- getAvailableDates -----

  /** The default comparator of `Array.prototype.sort` on strings: `a` may stay in front
      of `b` unless `b < a`. */
  function ByCodeUnits(): (string, string) -> bool
  {
    (a: string, b: string) => AtMost(a, b)
  }

  /** `s.slice().reverse()`. */
  function Reverse<T>(s: seq<T>): (r: seq<T>)
    ensures |r| == |s| && forall i :: 0 <= i < |s| ==> r[i] == s[|s| - 1 - i]
  {
    if s == [] then [] else Reverse(s[1..]) + [s[0]]
  }

  /** `names.filter(f => f.endsWith('.json'))`. */
  function JsonFiles(names: seq<string>): (r: seq<string>)
    ensures forall i :: 0 <= i < |r| ==> EndsWith(r[i], ".json")
    ensures forall f :: f in r <==> f in names && EndsWith(f, ".json")
  {
    if names == [] then []
    else (if EndsWith(names[0], ".json") then [names[0]] else []) + JsonFiles(names[1..])
  }

  /** `f.replace('.json', '')`: the FIRST `.json` of the name is removed. */
  function DateOf(file: string): string
  {
    ReplaceFirst(file, ".json", "")
  }

  /** The history file of a date, `${date}.json`. */
  function FileOf(date: string): string
  {
    date + ".json"
  }

  /** `files.map(f => f.replace('.json', ''))`. */
  function DatesOf(files: seq<string>): (r: seq<string>)
    ensures |r| == |files| && forall i :: 0 <= i < |files| ==> r[i] == DateOf(files[i])
  {
    if files == [] then [] else [DateOf(files[0])] + DatesOf(files[1..])
  }

  /** `getAvailableDates(dir)`: the dates of the `.json` files, newest first. */
  function AvailableDates(listing: Option<seq<string>>): seq<string>
  {
    match listing
    case None => []
    case Some(names) => Reverse(Sort(DatesOf(JsonFiles(names)), ByCodeUnits()))
  }

  /** Newest first: no date is smaller than a later one. */
  predicate Descending(dates: seq<string>)
  {
    forall i, j :: 0 <= i < j < |dates| ==> AtMost(dates[j], dates[i])
  }

  lemma CodeUnitOrder()
    ensures TotalPreorder(ByCodeUnits())
  {
    AtMostTotalOrder();
  }

  /** A date is listed for a file exactly when it is that file's date. */
  lemma {:induction false} DatesOfMembers(files: seq<string>)
    ensures forall d :: d in DatesOf(files) <==> exists f :: f in files && d == DateOf(f)
  {
    var dates := DatesOf(files);
    forall d ensures d in dates <==> exists f :: f in files && d == DateOf(f) {
      if d in dates {
        var i :| 0 <= i < |dates| && dates[i] == d;
        assert files[i] in files && d == DateOf(files[i]);
      }
      if f :| f in files && d == DateOf(f) {
        var i :| 0 <= i < |files| && files[i] == f;
        assert dates[i] == d;
      }
    }
  }

  /** The dates listed are exactly the names of the `.json` files with their first `.json`
      removed, one for each file. */
  lemma {:induction false} AvailableDatesFromFiles(names: seq<string>)
    ensures multiset(AvailableDates(Some(names))) == multiset(DatesOf(JsonFiles(names)))
    ensures forall d :: d in AvailableDates(Some(names)) <==>
              exists f :: f in names && EndsWith(f, ".json") && d == DateOf(f)
  {
    var json := JsonFiles(names);
    var sorted := Sort(DatesOf(json), ByCodeUnits());
    var r := AvailableDates(Some(names));
    ReverseMultiset(sorted);
    PermutationMembers(r, DatesOf(json));
    DatesOfMembers(json);
    forall d ensures d in r <==> exists f :: f in names && EndsWith(f, ".json") && d == DateOf(f) {
      if f :| f in names && EndsWith(f, ".json") && d == DateOf(f) {
        assert f in json;
      }
    }
  }

  lemma {:induction false} ReverseMultiset<T>(s: seq<T>)
    ensures multiset(Reverse(s)) == multiset(s)
  {
    if s != [] {
      ReverseMultiset(s[1..]);
      assert s == [s[0]] + s[1..];
    }
  }

  /** Reversing an ascending list gives a newest-first one. */
  lemma {:induction false} ReverseSorted(s: seq<string>)
    requires Sorted(s, ByCodeUnits())
    ensures Descending(Reverse(s))
  {
    var r := Reverse(s);
    forall i, j | 0 <= i < j < |r| ensures AtMost(r[j], r[i]) {
      assert r[i] == s[|s| - 1 - i] && r[j] == s[|s| - 1 - j];
    }
  }

  /** A newest-first list without repetitions is strictly newest first. */
  lemma {:induction false} StrictlyDescending(r: seq<string>)
    requires Descending(r) && Distinct(r)
    ensures forall i, j :: 0 <= i < j < |r| ==> Less(r[j], r[i])
  {
    forall i, j | 0 <= i < j < |r| ensures Less(r[j], r[i]) {
      LessTrichotomous(r[j], r[i]);
    }
  }

  /** The dates are listed newest first, strictly so when no two files give the same
      date. */
  lemma {:induction false} AvailableDatesNewestFirst(listing: Option<seq<string>>)
    ensures listing.None? ==> AvailableDates(listing) == []
    ensures Descending(AvailableDates(listing))
    ensures listing.Some? && Distinct(DatesOf(JsonFiles(listing.value))) ==>
              forall i, j :: 0 <= i < j < |AvailableDates(listing)| ==>
                Less(AvailableDates(listing)[j], AvailableDates(listing)[i])
  {
    if listing.Some? {
      var dates := DatesOf(JsonFiles(listing.value));
      var sorted := Sort(dates, ByCodeUnits());
      CodeUnitOrder();
      SortSorted(dates, ByCodeUnits());
      ReverseSorted(sorted);
      if Distinct(dates) {
        DistinctPermutation(dates, sorted);
        ReverseMultiset(sorted);
        DistinctPermutation(sorted, Reverse(sorted));
        StrictlyDescending(Reverse(sorted));
      }
    }
  }

  /** A file whose only `.json` is its suffix is found again from its date; a name with an
      earlier `.json` is not. */
  lemma {:induction false} FileOfDate(file: string)
    requires EndsWith(file, ".json")
    requires forall i :: 0 <= i < |file| - 5 ==> !OccursAt(file, ".json", i)
    ensures FileOf(DateOf(file)) == file
  {
    var i := |file| - 5;
    assert OccursAt(file, ".json", i);
    assert IndexOfFrom(file, ".json", 0) == Some(i);
    assert file[..i] + "" + file[i + 5..] == file[..i];
    assert file[..i] + ".json" == file;
  }

  lemma FileOfDateMismatch()
    ensures EndsWith("x.jsonfoo.json", ".json")
    ensures FileOf(DateOf("x.jsonfoo.json")) == "xfoo.json.json"
  {
    var f := "x.jsonfoo.json";
    assert f[1..6] == ".json";
    assert f[0] != '.';
    assert IndexOfFrom(f, ".json", 0) == Some(1);
    assert f[..1] + "" + f[6..] == "xfoo.json";
  }

  // ----- buildMainData -----

  /** A parsed history file: fund name -> rows. */
  type Snapshot = Object<seq<Row>>

  /** `data`: fund name -> date -> rows. */
  type FundHistory = Object<Object<seq<Row>>>

  datatype ReadError = Unreadable(file: string)

  /** `{ dates, data }`. */
  datatype MainData = MainData(dates: seq<string>, data: FundHistory)

  /** Every parsed file is a proper object. */
  ghost predicate ValidFiles(files: map<string, Snapshot>)
  {
    forall name :: name in files ==> Valid(files[name])
  }

  /** The fund history and every per-fund object in it are proper objects. */
  ghost predicate ValidHistory(data: FundHistory)
  {
    Valid(data) && forall f :: f in data.entries ==> Valid(data.entries[f])
  }

  /** `dates.filter(d => d >= cutoffStr)`. */
  function Retained(dates: seq<string>, cutoff: string): (r: seq<string>)
    ensures |r| <= |dates|
    ensures forall d :: d in r <==> d in dates && AtMost(cutoff, d)
  {
    if dates == [] then []
    else (if AtMost(cutoff, dates[0]) then [dates[0]] else []) + Retained(dates[1..], cutoff)
  }

  /** A history holds rows of fund `f` at date `d`. */
  predicate Has(data: FundHistory, f: string, d: string)
  {
    f in data.entries && d in data.entries[f].entries
  }

  /** Record the rows of one fund under a date, first creating an empty record for a fund
      not yet seen. */
  function AddRows(data: FundHistory, fund: string, date: string, rows: seq<Row>): FundHistory
  {
    var created := if fund in data.entries then data else Put(data, fund, Empty());
    Put(created, fund, Put(created.entries[fund], date, rows))
  }

  /** The inner loop over `Object.entries(snapshot)`, for the funds `funds`. */
  function AddSnapshot(data: FundHistory, date: string, snapshot: Snapshot, funds: seq<string>): FundHistory
    requires forall f :: f in funds ==> f in snapshot.entries
  {
    if funds == [] then data
    else
      var last := funds[|funds| - 1];
      AddRows(AddSnapshot(data, date, snapshot, funds[..|funds| - 1]), last, date, snapshot.entries[last])
  }

  /** The outer loop over the retained dates; the first unreadable file stops it. */
  function Merge(dates: seq<string>, files: map<string, Snapshot>): Result<FundHistory, ReadError>
    requires ValidFiles(files)
  {
    if dates == [] then Ok(Empty())
    else
      match Merge(dates[..|dates| - 1], files)
      case Err(e) => Err(e)
      case Ok(data) =>
        var file := FileOf(dates[|dates| - 1]);
        if file !in files then Err(Unreadable(file))
        else
          KeysOfValid(files[file]);
          Ok(AddSnapshot(data, dates[|dates| - 1], files[file], Keys(files[file])))
  }

  /** `buildMainData(historyDir)`, with the cutoff date given: `None` (null) when the
      directory holds no dates. */
  function MainDataOf(listing: Option<seq<string>>, files: map<string, Snapshot>, cutoff: string)
    : Result<Option<MainData>, ReadError>
    requires ValidFiles(files)
  {
    var dates := AvailableDates(listing);
    if |dates| == 0 then Ok(None)
    else
      var kept := Retained(dates, cutoff);
      match Merge(kept, files)
      case Err(e) => Err(e)
      case Ok(data) => Ok(Some(MainData(kept, data)))
  }

  // ----- properties of the window -----

  /** The tail of a newest-first list is newest first. */
  lemma {:induction false} DescendingTail(dates: seq<string>)
    requires Descending(dates) && dates != []
    ensures Descending(dates[1..])
  {
    var tail := dates[1..];
    forall i, j | 0 <= i < j < |tail| ensures AtMost(tail[j], tail[i]) {
      assert tail[i] == dates[i + 1] && tail[j] == dates[j + 1];
    }
  }

  /** Once a date of a newest-first list is older than the cutoff, so are all after it. */
  lemma {:induction false} OlderAfter(dates: seq<string>, cutoff: string)
    requires Descending(dates) && dates != [] && Less(dates[0], cutoff)
    ensures forall i :: 0 <= i < |dates| ==> Less(dates[i], cutoff)
  {
    forall i | 0 < i < |dates| ensures Less(dates[i], cutoff) {
      assert AtMost(dates[i], dates[0]);
      LessTrichotomous(dates[i], dates[0]);
      if Less(dates[i], dates[0]) {
        LessTransitive(dates[i], dates[0], cutoff);
      }
    }
  }

  /** The dates kept from a newest-first list are a prefix of it: exactly the dates not
      older than the cutoff, in the same order. */
  lemma {:induction false} RetainedPrefix(dates: seq<string>, cutoff: string)
    requires Descending(dates)
    ensures var r := Retained(dates, cutoff);
      && r == dates[..|r|]
      && (forall i :: 0 <= i < |r| ==> AtMost(cutoff, dates[i]))
      && (forall i :: |r| <= i < |dates| ==> Less(dates[i], cutoff))
  {
    RetainedPrefixOf(dates, cutoff, Retained(dates, cutoff));
  }

  lemma {:induction false} RetainedPrefixOf(dates: seq<string>, cutoff: string, r: seq<string>)
    requires Descending(dates)
    requires r == Retained(dates, cutoff)
    ensures r == dates[..|r|]
    ensures forall i :: 0 <= i < |r| ==> AtMost(cutoff, dates[i])
    ensures forall i :: |r| <= i < |dates| ==> Less(dates[i], cutoff)
  {
    if dates != [] {
      if AtMost(cutoff, dates[0]) {
        var tail := dates[1..];
        var r1 := Retained(tail, cutoff);
        DescendingTail(dates);
        RetainedPrefixOf(tail, cutoff, r1);
        assert r == [dates[0]] + r1;
        assert dates[..|r|] == [dates[0]] + tail[..|r1|];
        forall i | 1 <= i < |dates|
          ensures (i < |r| ==> AtMost(cutoff, dates[i])) && (|r| <= i ==> Less(dates[i], cutoff))
        {
          assert dates[i] == tail[i - 1];
        }
      } else {
        OlderAfter(dates, cutoff);
        RetainedNone(dates, cutoff);
      }
    }
  }

  /** `buildMainData` is null exactly when the directory holds no dates; otherwise it keeps
      exactly the dates not older than the cutoff, newest first, even when that leaves
      none. */
  lemma {:induction false} MainDataWindow(listing: Option<seq<string>>, files: map<string, Snapshot>, cutoff: string)
    requires ValidFiles(files)
    ensures MainDataOf(listing, files, cutoff) == Ok(None) <==> |AvailableDates(listing)| == 0
    ensures MainDataOf(listing, files, cutoff).Ok? && MainDataOf(listing, files, cutoff).value.Some? ==>
      var kept := MainDataOf(listing, files, cutoff).value.value.dates;
      var dates := AvailableDates(listing);
      && kept == dates[..|kept|]
      && (forall i :: 0 <= i < |kept| ==> AtMost(cutoff, dates[i]))
      && (forall i :: |kept| <= i < |dates| ==> Less(dates[i], cutoff))
  {
    AvailableDatesNewestFirst(listing);
    RetainedPrefix(AvailableDates(listing), cutoff);
  }

  /** Nothing is kept when every date is older than the cutoff. */
  lemma {:induction false} RetainedNone(dates: seq<string>, cutoff: string)
    requires forall i :: 0 <= i < |dates| ==> Less(dates[i], cutoff)
    ensures Retained(dates, cutoff) == []
  {
    if dates != [] {
      RetainedNone(dates[1..], cutoff);
    }
  }

  /** When every date is older than the cutoff the result is `{ dates: [], data: {} }`,
      not null. */
  lemma {:induction false} MainDataAllOld(listing: Option<seq<string>>, files: map<string, Snapshot>, cutoff: string)
    requires ValidFiles(files)
    requires |AvailableDates(listing)| > 0
    requires forall i :: 0 <= i < |AvailableDates(listing)| ==> Less(AvailableDates(listing)[i], cutoff)
    ensures MainDataOf(listing, files, cutoff) == Ok(Some(MainData([], Empty())))
  {
    RetainedNone(AvailableDates(listing), cutoff);
  }

  /** One fund of one snapshot: the rows are recorded under that fund and date, and
      nothing else changes. */
  lemma {:induction false} AddRowsContents(data: FundHistory, fund: string, date: string, rows: seq<Row>)
    requires ValidHistory(data)
    ensures var r := AddRows(data, fund, date, rows);
      && ValidHistory(r)
      && (forall f :: f in r.entries <==> f in data.entries || f == fund)
      && (forall f, d :: Has(r, f, d) <==> Has(data, f, d) || (f == fund && d == date))
      && (forall f, d :: Has(r, f, d) ==>
            r.entries[f].entries[d] == if f == fund && d == date then rows else data.entries[f].entries[d])
  {
    var created := if fund in data.entries then data else Put(data, fund, Empty());
    assert ValidHistory(created);
    var inner := Put(created.entries[fund], date, rows);
    assert inner.entries == (if fund in data.entries then data.entries[fund].entries else map[])[date := rows];
    var r := Put(created, fund, inner);
    assert r == AddRows(data, fund, date, rows);
    assert r.entries == data.entries[fund := inner];
  }

  /** The inner loop records the rows of every listed fund under the date. */
  lemma {:induction false} AddSnapshotContents(data: FundHistory, date: string, snapshot: Snapshot, funds: seq<string>)
    requires ValidHistory(data)
    requires forall f :: f in funds ==> f in snapshot.entries
    ensures var r := AddSnapshot(data, date, snapshot, funds);
      && ValidHistory(r)
      && (forall f :: f in r.entries <==> f in data.entries || f in funds)
      && (forall f, d :: Has(r, f, d) <==> Has(data, f, d) || (f in funds && d == date))
      && (forall f, d :: Has(r, f, d) ==>
            r.entries[f].entries[d] == if f in funds && d == date then snapshot.entries[f] else data.entries[f].entries[d])
  {
    if funds != [] {
      var front, last := funds[..|funds| - 1], funds[|funds| - 1];
      assert forall f :: f in funds <==> f in front || f == last by {
        assert funds == front + [last];
      }
      AddSnapshotContents(data, date, snapshot, front);
      AddRowsContents(AddSnapshot(data, date, snapshot, front), last, date, snapshot.entries[last]);
    }
  }

  /** A history in which every fund has rows at some date. */
  predicate NoEmptyFund(data: FundHistory)
  {
    forall f :: f in data.entries ==> data.entries[f].entries != map[]
  }

  /** The inner loop never leaves a fund without rows. */
  lemma {:induction false} AddSnapshotNoEmpty(data: FundHistory, date: string, snapshot: Snapshot, funds: seq<string>)
    requires forall f :: f in funds ==> f in snapshot.entries
    requires NoEmptyFund(data)
    ensures NoEmptyFund(AddSnapshot(data, date, snapshot, funds))
  {
    if funds != [] {
      var front, last := funds[..|funds| - 1], funds[|funds| - 1];
      AddSnapshotNoEmpty(data, date, snapshot, front);
      var acc := AddSnapshot(data, date, snapshot, front);
      var r := AddRows(acc, last, date, snapshot.entries[last]);
      assert date in r.entries[last].entries;
    }
  }

  /** Merging succeeds exactly when every retained date's file can be read. */
  lemma {:induction false} MergeSucceeds(dates: seq<string>, files: map<string, Snapshot>)
    requires ValidFiles(files)
    ensures Merge(dates, files).Ok? <==> forall d :: d in dates ==> FileOf(d) in files
  {
    if dates != [] {
      var front := dates[..|dates| - 1];
      assert forall d :: d in dates <==> d in front || d == dates[|dates| - 1] by {
        assert dates == front + [dates[|dates| - 1]];
      }
      MergeSucceeds(front, files);
    }
  }

  lemma {:induction false} AddSnapshotValid(data: FundHistory, date: string, snapshot: Snapshot, funds: seq<string>, r: FundHistory)
    requires ValidHistory(data)
    requires forall f :: f in funds ==> f in snapshot.entries
    requires r == AddSnapshot(data, date, snapshot, funds)
    ensures ValidHistory(r)
  {
    AddSnapshotContents(data, date, snapshot, funds);
  }

  lemma {:induction false} MergeValid(dates: seq<string>, files: map<string, Snapshot>, data: FundHistory)
    requires ValidFiles(files)
    requires Merge(dates, files) == Ok(data)
    ensures ValidHistory(data)
  {
    if dates != [] {
      var front, last := dates[..|dates| - 1], dates[|dates| - 1];
      var snapshot := files[FileOf(last)];
      KeysOfValid(snapshot);
      var data0 := Merge(front, files).value;
      assert data == AddSnapshot(data0, last, snapshot, Keys(snapshot));
      MergeValid(front, files, data0);
      AddSnapshotValid(data0, last, snapshot, Keys(snapshot), data);
    }
  }

  lemma {:induction false} AddSnapshotHas(data: FundHistory, date: string, snapshot: Snapshot, funds: seq<string>, r: FundHistory)
    requires ValidHistory(data)
    requires forall f :: f in funds ==> f in snapshot.entries
    requires r == AddSnapshot(data, date, snapshot, funds)
    ensures forall f, d :: Has(r, f, d) <==> Has(data, f, d) || (f in funds && d == date)
  {
    AddSnapshotContents(data, date, snapshot, funds);
  }

  lemma {:induction false} MergeHas(dates: seq<string>, files: map<string, Snapshot>, data: FundHistory)
    requires ValidFiles(files)
    requires Merge(dates, files) == Ok(data)
    requires forall d :: d in dates ==> FileOf(d) in files
    ensures forall f, d :: Has(data, f, d) <==> d in dates && f in files[FileOf(d)].entries
  {
    if dates != [] {
      var front, last := dates[..|dates| - 1], dates[|dates| - 1];
      assert dates == front + [last];
      MergeSucceeds(front, files);
      var snapshot := files[FileOf(last)];
      KeysOfValid(snapshot);
      var data0 := Merge(front, files).value;
      assert data == AddSnapshot(data0, last, snapshot, Keys(snapshot));
      MergeValid(front, files, data0);
      MergeHas(front, files, data0);
      AddSnapshotHas(data0, last, snapshot, Keys(snapshot), data);
      forall f, d ensures Has(data, f, d) <==> d in dates && f in files[FileOf(d)].entries {
        assert d in dates <==> d in front || d == last;
        assert Has(data, f, d) <==> Has(data0, f, d) || (f in Keys(snapshot) && d == last);
      }
    }
  }

  lemma {:induction false} MergeValues(dates: seq<string>, files: map<string, Snapshot>, data: FundHistory)
    requires ValidFiles(files)
    requires Merge(dates, files) == Ok(data)
    ensures forall f, d :: Has(data, f, d) ==> FileOf(d) in files && f in files[FileOf(d)].entries
    ensures forall f, d :: Has(data, f, d) ==> data.entries[f].entries[d] == files[FileOf(d)].entries[f]
  {
    if dates != [] {
      var front, last := dates[..|dates| - 1], dates[|dates| - 1];
      var snapshot := files[FileOf(last)];
      KeysOfValid(snapshot);
      var data0 := Merge(front, files).value;
      assert data == AddSnapshot(data0, last, snapshot, Keys(snapshot));
      MergeValid(front, files, data0);
      MergeValues(front, files, data0);
      AddSnapshotContents(data0, last, snapshot, Keys(snapshot));
      forall f, d | Has(data, f, d)
        ensures FileOf(d) in files && f in files[FileOf(d)].entries
        ensures data.entries[f].entries[d] == files[FileOf(d)].entries[f]
      {
        if !(f in Keys(snapshot) && d == last) {
          assert Has(data0, f, d);
        }
      }
    }
  }

  lemma {:induction false} MergeRows(dates: seq<string>, files: map<string, Snapshot>, data: FundHistory)
    requires ValidFiles(files)
    requires Merge(dates, files) == Ok(data)
    requires forall d :: d in dates ==> FileOf(d) in files
    ensures forall f, d :: Has(data, f, d) <==> d in dates && f in files[FileOf(d)].entries
    ensures forall f, d :: Has(data, f, d) ==> data.entries[f].entries[d] == files[FileOf(d)].entries[f]
  {
    MergeHas(dates, files, data);
    MergeValues(dates, files, data);
  }

  lemma {:induction false} MergeNoEmpty(dates: seq<string>, files: map<string, Snapshot>, data: FundHistory)
    requires ValidFiles(files)
    requires Merge(dates, files) == Ok(data)
    ensures NoEmptyFund(data)
  {
    if dates != [] {
      var front, last := dates[..|dates| - 1], dates[|dates| - 1];
      var snapshot := files[FileOf(last)];
      KeysOfValid(snapshot);
      var data0 := Merge(front, files).value;
      assert data == AddSnapshot(data0, last, snapshot, Keys(snapshot));
      MergeNoEmpty(front, files, data0);
      AddSnapshotNoEmpty(data0, last, snapshot, Keys(snapshot));
    }
  }

  /** The merged history: fund `f` has rows at date `d` exactly when `d` is retained and
      the snapshot of `d` lists `f`, and then they are that snapshot's rows; a fund
      missing from a date has no entry for it, not an empty list, and no fund is left
      without rows. */
  lemma {:induction false} MergeContents(dates: seq<string>, files: map<string, Snapshot>, data: FundHistory)
    requires ValidFiles(files)
    requires Merge(dates, files) == Ok(data)
    ensures forall d :: d in dates ==> FileOf(d) in files
    ensures ValidHistory(data)
    ensures forall f, d :: Has(data, f, d) <==> d in dates && f in files[FileOf(d)].entries
    ensures forall f, d :: Has(data, f, d) ==> data.entries[f].entries[d] == files[FileOf(d)].entries[f]
    ensures NoEmptyFund(data)
  {
    MergeSucceeds(dates, files);
    MergeValid(dates, files, data);
    MergeRows(dates, files, data);
    MergeNoEmpty(dates, files, data);
  }

  /** Every fund of the merged history comes from some retained snapshot. */
  lemma {:induction false} MergeOrigin(dates: seq<string>, files: map<string, Snapshot>, data: FundHistory)
    requires ValidFiles(files)
    requires Merge(dates, files) == Ok(data)
    ensures forall f :: f in data.entries ==>
              exists d :: d in dates && FileOf(d) in files && f in files[FileOf(d)].entries
  {
    MergeContents(dates, files, data);
    forall f | f in data.entries ensures exists d :: d in dates && FileOf(d) in files && f in files[FileOf(d)].entries {
      var days := data.entries[f].entries;
      assert days != map[];
      var d :| d in days;
      assert Has(data, f, d);
    }
  }

  /** An unreadable file stops the merge for good. */
  lemma {:induction false} MergeErrorPersists(dates: seq<string>, files: map<string, Snapshot>, n: nat)
    requires ValidFiles(files)
    requires n <= |dates| && Merge(dates[..n], files).Err?
    ensures Merge(dates, files) == Merge(dates[..n], files)
    decreases |dates| - n
  {
    if n < |dates| {
      assert dates[..n + 1][..n] == dates[..n];
      MergeErrorPersists(dates, files, n + 1);
    } else {
      assert dates[..n] == dates;
    }
  }

  // ----- the imperative procedure -----

  lemma {:induction false} AddSnapshotStep(data0: FundHistory, date: string, snapshot: Snapshot, funds: seq<string>, j: nat)
    requires forall f :: f in funds ==> f in snapshot.entries
    requires j < |funds|
    ensures forall f :: f in funds[..j] ==> f in snapshot.entries
    ensures AddSnapshot(data0, date, snapshot, funds[..j + 1])
         == AddRows(AddSnapshot(data0, date, snapshot, funds[..j]), funds[j], date, snapshot.entries[funds[j]])
  {
    assert funds[..j + 1][..j] == funds[..j] && funds[..j + 1][j] == funds[j];
  }

  /** Walk the funds of one snapshot in key order (`funds`, the snapshot's keys) and record
      each one's rows under the date. */
  method AddSnapshotRows(data0: FundHistory, date: string, snapshot: Snapshot, funds: seq<string>) returns (data: FundHistory)
    requires forall f :: f in funds ==> f in snapshot.entries
    ensures data == AddSnapshot(data0, date, snapshot, funds)
  {
    data := data0;
    var j := 0;
    while j < |funds|
      invariant 0 <= j <= |funds|
      invariant data == AddSnapshot(data0, date, snapshot, funds[..j])
    {
      var etfName, rows := funds[j], snapshot.entries[funds[j]];
      AddSnapshotStep(data0, date, snapshot, funds, j);
      ghost var acc := data;
      if etfName !in data.entries {
        data := Put(data, etfName, Empty());
      }
      data := Put(data, etfName, Put(data.entries[etfName], date, rows));
      assert data == AddRows(acc, etfName, date, rows);
      j := j + 1;
    }
    assert funds[..j] == funds;
  }

  /** One more readable date adds its snapshot's funds to the merged history. */
  lemma {:induction false} MergeExtend(dates: seq<string>, files: map<string, Snapshot>, i: nat, data: FundHistory)
    requires ValidFiles(files)
    requires i < |dates| && FileOf(dates[i]) in files
    requires Merge(dates[..i], files) == Ok(data)
    ensures forall f :: f in Keys(files[FileOf(dates[i])]) ==> f in files[FileOf(dates[i])].entries
    ensures Merge(dates[..i + 1], files)
      == Ok(AddSnapshot(data, dates[i], files[FileOf(dates[i])], Keys(files[FileOf(dates[i])])))
  {
    KeysOfValid(files[FileOf(dates[i])]);
    assert dates[..i + 1][..i] == dates[..i];
  }

  lemma {:induction false} MergeWhole(dates: seq<string>, files: map<string, Snapshot>)
    requires ValidFiles(files)
    ensures Merge(dates[..|dates|], files) == Merge(dates, files)
  {
    assert dates[..|dates|] == dates;
  }

  /** The outer loop of `buildMainData` over the retained dates: each date's snapshot is
      read and its funds recorded; an unreadable file stops it. */
  method MergeDates(filteredDates: seq<string>, files: map<string, Snapshot>) returns (r: Result<FundHistory, ReadError>)
    requires ValidFiles(files)
    ensures r == Merge(filteredDates, files)
  {
    var data: FundHistory := Empty();
    var i := 0;
    while i < |filteredDates|
      invariant 0 <= i <= |filteredDates|
      invariant Merge(filteredDates[..i], files) == Ok(data)
    {
      var date := filteredDates[i];
      var filePath := FileOf(date);
      if filePath !in files {
        assert filteredDates[..i + 1][..i] == filteredDates[..i];
        assert Merge(filteredDates[..i + 1], files) == Err(Unreadable(filePath));
        MergeErrorPersists(filteredDates, files, i + 1);
        return Err(Unreadable(filePath));
      }
      MergeExtend(filteredDates, files, i, data);
      data := AddSnapshotRows(data, date, files[filePath], Keys(files[filePath]));
      i := i + 1;
    }
    MergeWhole(filteredDates, files);
    return Ok(data);
  }

  /** `buildMainData(historyDir)`: no dates gives `null`; otherwise the retained dates and
      the history merged from their snapshots. */
  method BuildMainData(listing: Option<seq<string>>, files: map<string, Snapshot>, cutoff: string)
    returns (r: Result<Option<MainData>, ReadError>)
    requires ValidFiles(files)
    ensures r == MainDataOf(listing, files, cutoff)
  {
    var dates := AvailableDates(listing);
    if |dates| == 0 {
      return Ok(None);
    }
    var filteredDates := Retained(dates, cutoff);
    var merged := MergeDates(filteredDates, files);
    match merged
    case Err(e) => return Err(e);
    case Ok(data) => return Ok(Some(MainData(filteredDates, data)));
  }
}
