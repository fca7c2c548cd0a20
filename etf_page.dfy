/**
 * `parseETFPage(html)` of scripts/update.js: the holdings table of a fund's page, read with
 * two global, case-insensitive regular expressions. `/<tr[^>]*>([\s\S]*?)<\/tr>/gi` finds
 * the table rows, `/<td[^>]*>([\s\S]*?)<\/td>/gi` the cells of a row; each cell loses every
 * `<…>` tag (`/<[^>]*>/g`) and its surrounding white space. A row with at least five cells
 * becomes `[ticker, name, quantity, weight]` (cells 0, 1, 2 and 4) unless its ticker is
 * empty, is the header text, or its name is the cash line.
 */
module EtfPage {

  import opened Wrappers
  import opened JsString

  /** The ticker cell of the table's header row: "종목코드". */
  const HEADER_TICKER: string := "\U{C885}\U{BAA9}\U{CF54}\U{B4DC}"

  /** The name of the cash line: "현금". */
  const CASH_NAME: string := "\U{D604}\U{AE08}"

  // ----- the regular-expression building blocks -----

  /** A character of the text matches a pattern character under the `i` flag: the same
      character, or the upper-case form of a lower-case ASCII letter. */
  predicate SameCaseless(c: char, p: char)
  {
    c == p || ('a' <= p <= 'z' && c as int == p as int - 32)
  }

  /** `pat[k..]` occurs in `s` at position `i + k`, letters compared without case. */
  predicate CaselessFrom(s: string, pat: string, i: nat, k: nat)
    decreases |pat| - k
  {
    k >= |pat| || (i + k < |s| && SameCaseless(s[i + k], pat[k]) && CaselessFrom(s, pat, i, k + 1))
  }

  /** `pat` occurs in `s` at position `i`, letters compared without case. */
  predicate OccursCaselessAt(s: string, pat: string, i: nat)
  {
    i + |pat| <= |s| && CaselessFrom(s, pat, i, 0)
  }

  /** The first position at or after `from` where `pat` occurs, letters compared without
      case. */
  function IndexOfCaseless(s: string, pat: string, from: nat): (r: Option<nat>)
    decreases |s| - from
    ensures r.Some? ==> from <= r.value && r.value + |pat| <= |s|
  {
    if from + |pat| > |s| then None
    else if OccursCaselessAt(s, pat, from) then Some(from)
    else IndexOfCaseless(s, pat, from + 1)
  }

  /** The first position at or after `from` holding the character `c`. */
  function IndexOfChar(s: string, c: char, from: nat): (r: Option<nat>)
    decreases |s| - from
    ensures r.Some? ==> from <= r.value < |s|
  {
    if from >= |s| then None
    else if s[from] == c then Some(from)
    else IndexOfChar(s, c, from + 1)
  }

  /** `IndexOfCaseless` finds the first occurrence at or after `from`. */
  lemma {:induction false} IndexOfCaselessFirst(s: string, pat: string, from: nat)
    decreases |s| - from
    ensures var r := IndexOfCaseless(s, pat, from);
      && (r.Some? ==> OccursCaselessAt(s, pat, r.value))
      && forall i :: from <= i && (r.None? || i < r.value) ==> !OccursCaselessAt(s, pat, i)
  {
    if from + |pat| <= |s| && !OccursCaselessAt(s, pat, from) {
      IndexOfCaselessFirst(s, pat, from + 1);
    }
  }

  /** `IndexOfChar` finds the first occurrence at or after `from`. */
  lemma {:induction false} IndexOfCharFirst(s: string, c: char, from: nat)
    decreases |s| - from
    ensures var r := IndexOfChar(s, c, from);
      && (r.Some? ==> s[r.value] == c)
      && forall i :: from <= i < |s| && (r.None? || i < r.value) ==> s[i] != c
  {
    if from < |s| && s[from] != c {
      IndexOfCharFirst(s, c, from + 1);
    }
  }

  /** A match of `<tag[^>]*>([\s\S]*?)<\/tag>`: where it starts, where its captured body
      starts and ends, and where the match ends. */
  datatype Match = Match(start: nat, bodyStart: nat, bodyEnd: nat, end: nat)

  /** The match lies in `s`, in the order of its parts. */
  predicate Within(s: string, m: Match)
  {
    m.start < m.bodyStart <= m.bodyEnd < m.end <= |s|
  }

  /** The captured body of a match. */
  function Body(s: string, m: Match): string
    requires Within(s, m)
  {
    s[m.bodyStart..m.bodyEnd]
  }

  /** The match of `<tag[^>]*>([\s\S]*?)<\/tag>` starting at position `p`, if there is
      one: `<tag` (any case) at `p`; the opening tag runs to the first `>` after it, since
      `[^>]*` cannot pass a `>`; the lazy body then stops at the first `</tag>` (any case). */
  function MatchAt(s: string, tag: string, p: nat): (r: Option<Match>)
    ensures r.Some? ==> r.value.start == p && Within(s, r.value)
  {
    var open, close := "<" + tag, "</" + tag + ">";
    if !OccursCaselessAt(s, open, p) then None
    else match IndexOfChar(s, '>', p + |open|)
      case None => None
      case Some(g) =>
        match IndexOfCaseless(s, close, g + 1)
        case None => None
        case Some(c) => Some(Match(p, g + 1, c, c + |close|))
  }

  /** `re.exec(s)` with `re.lastIndex == from`: the attempt at the first `<tag` at or
      after `from` (the leftmost-match claim is `ExecLeftmost`). */
  function Exec(s: string, tag: string, from: nat): (r: Option<Match>)
    ensures r.Some? ==> from <= r.value.start && Within(s, r.value)
  {
    match IndexOfCaseless(s, "<" + tag, from)
    case None => None
    case Some(p) => MatchAt(s, tag, p)
  }

  /** The matches a `while ((m = re.exec(s)) !== null)` loop visits from `from` on: each
      search resumes where the previous match ended. */
  function Matches(s: string, tag: string, from: nat): (r: seq<Match>)
    requires from <= |s|
    decreases |s| - from
    ensures forall i :: 0 <= i < |r| ==> from <= r[i].start && Within(s, r[i])
  {
    match Exec(s, tag, from)
    case None => []
    case Some(m) => [m] + Matches(s, tag, m.end)
  }

  /** `text.replace(/<[^>]*>/g, '')`: from left to right, each `<` that has a `>` after
      it is removed together with everything up to the first such `>`. */
  function StripTags(s: string): (r: string)
    decreases |s|
  {
    if s == [] then []
    else if s[0] == '<' && IndexOfChar(s, '>', 1).Some? then StripTags(s[IndexOfChar(s, '>', 1).value + 1..])
    else [s[0]] + StripTags(s[1..])
  }

  /** The text of a cell: without tags and without the surrounding white space. */
  function CellText(cellBody: string): string
  {
    Trim(StripTags(cellBody))
  }

  /** The texts of the cells a `<td>` loop finds from `from` on. */
  function CellsFrom(rowBody: string, from: nat): seq<string>
    requires from <= |rowBody|
    decreases |rowBody| - from
  {
    match Exec(rowBody, "td", from)
    case None => []
    case Some(m) => [CellText(Body(rowBody, m))] + CellsFrom(rowBody, m.end)
  }

  /** The cell texts of a row body. */
  function Cells(rowBody: string): seq<string>
  {
    CellsFrom(rowBody, 0)
  }

  /** The row kept for a list of cells, if any: a row with fewer than five cells, an
      empty or header ticker, or the cash line gives none; otherwise the ticker, name,
      quantity and weight cells, the amount cell and any later cells dropped. */
  function RowOf(cells: seq<string>): (r: Option<seq<string>>)
    ensures |cells| < 5 ==> r.None?
    ensures |cells| >= 5 ==>
      (r.None? <==> cells[0] == "" || cells[0] == HEADER_TICKER || cells[1] == CASH_NAME)
    ensures r.Some? ==> r.value == [cells[0], cells[1], cells[2], cells[4]]
  {
    if |cells| >= 5 && cells[0] != "" && cells[0] != HEADER_TICKER && cells[1] != CASH_NAME
    then Some([cells[0], cells[1], cells[2], cells[4]])
    else None
  }

  /** The row kept for one table-row match. */
  function RowAt(html: string, m: Match): Option<seq<string>>
    requires Within(html, m)
  {
    RowOf(Cells(Body(html, m)))
  }

  /** The rows pushed for one table row: none or one. */
  function RowList(kept: Option<seq<string>>): (r: seq<seq<string>>)
    ensures |r| <= 1
    ensures forall row :: row in r <==> kept == Some(row)
  {
    match kept
    case None => []
    case Some(row) => [row]
  }

  /** The rows a `<tr>` loop keeps from `from` on, in their order. */
  function RowsFrom(html: string, from: nat): seq<seq<string>>
    requires from <= |html|
    decreases |html| - from
  {
    match Exec(html, "tr", from)
    case None => []
    case Some(m) => RowList(RowAt(html, m)) + RowsFrom(html, m.end)
  }

  /** `parseETFPage(html)`. */
  function PageRows(html: string): seq<seq<string>>
  {
    RowsFrom(html, 0)
  }

  // ----- properties -----

  /** A match at `p` is what the pattern describes: `<tag` at `p`, then characters other
      than `>` up to the `>` that opens the body, then a body holding no `</tag>`, then
      `</tag>`; and a `<tag` at `p` with a `>` after it and a `</tag>` after that `>` always
      gives a match. */
  lemma {:induction false} MatchAtSpec(s: string, tag: string, p: nat)
    ensures var r := MatchAt(s, tag, p);
      r.Some? ==>
        && OccursCaselessAt(s, "<" + tag, p)
        && p + 1 + |tag| < r.value.bodyStart && s[r.value.bodyStart - 1] == '>'
        && (forall k :: p + 1 + |tag| <= k < r.value.bodyStart - 1 ==> s[k] != '>')
        && OccursCaselessAt(s, "</" + tag + ">", r.value.bodyEnd)
        && (forall k :: r.value.bodyStart <= k < r.value.bodyEnd ==> !OccursCaselessAt(s, "</" + tag + ">", k))
        && r.value.end == r.value.bodyEnd + |tag| + 3
    ensures forall g: nat, e: nat ::
              (&& OccursCaselessAt(s, "<" + tag, p) && OccursCaselessAt(s, "</" + tag + ">", e)
               && p + 1 + |tag| <= g < e && s[g] == '>') ==> MatchAt(s, tag, p).Some?
  {
    var open, close := "<" + tag, "</" + tag + ">";
    IndexOfCharFirst(s, '>', p + |open|);
    var g0 := IndexOfChar(s, '>', p + |open|);
    if g0.Some? {
      IndexOfCaselessFirst(s, close, g0.value + 1);
    }
  }

  /** An attempt that fails at one `<tag` fails at every later position too: a later
      opening tag closes at the same `>` or a later one, so the `</tag>` the body needs
      is missing after it as well. */
  lemma {:induction false} FailedAttemptFinal(s: string, tag: string, c: nat, p: nat)
    requires OccursCaselessAt(s, "<" + tag, c) && MatchAt(s, tag, c).None?
    requires c < p
    ensures MatchAt(s, tag, p).None?
  {
    var open, close := "<" + tag, "</" + tag + ">";
    if OccursCaselessAt(s, open, p) {
      IndexOfCharFirst(s, '>', c + |open|);
      IndexOfCharFirst(s, '>', p + |open|);
      var g0 := IndexOfChar(s, '>', c + |open|);
      var g := IndexOfChar(s, '>', p + |open|);
      if g.Some? {
        assert g0.Some? && g0.value <= g.value;
        IndexOfCaselessFirst(s, close, g0.value + 1);
        IndexOfCaselessFirst(s, close, g.value + 1);
        var e0 := IndexOfCaseless(s, close, g0.value + 1);
        var e := IndexOfCaseless(s, close, g.value + 1);
        assert e0.None?;
        assert e.None?;
      }
    }
  }

  /** `Exec` is the leftmost match at or after `from`: the match at its start, and no
      match at any earlier position. */
  lemma {:induction false} ExecLeftmost(s: string, tag: string, from: nat)
    ensures var r := Exec(s, tag, from);
      && (r.Some? ==> MatchAt(s, tag, r.value.start) == r)
      && forall p :: from <= p && (r.None? || p < r.value.start) ==> MatchAt(s, tag, p).None?
  {
    var r := Exec(s, tag, from);
    var c := IndexOfCaseless(s, "<" + tag, from);
    IndexOfCaselessFirst(s, "<" + tag, from);
    forall p | from <= p && (r.None? || p < r.value.start) ensures MatchAt(s, tag, p).None? {
      if c.Some? && c.value < p {
        FailedAttemptFinal(s, tag, c.value, p);
      }
    }
  }

  /** The matches a loop visits do not overlap and come in the order of the text. */
  lemma {:induction false} MatchesOrdered(s: string, tag: string, from: nat)
    requires from <= |s|
    decreases |s| - from
    ensures forall i, j :: 0 <= i < j < |Matches(s, tag, from)| ==>
              Matches(s, tag, from)[i].end <= Matches(s, tag, from)[j].start
  {
    var m := Exec(s, tag, from);
    if m.Some? {
      var rest := Matches(s, tag, m.value.end);
      MatchesOrdered(s, tag, m.value.end);
      var ms := Matches(s, tag, from);
      assert ms == [m.value] + rest;
      forall i, j | 0 <= i < j < |ms| ensures ms[i].end <= ms[j].start {
        var b := rest[j - 1];
        assert ms[j] == b;
        if i > 0 {
          var a := rest[i - 1];
          assert ms[i] == a;
        } else {
          assert ms[0] == m.value;
          assert m.value.end <= b.start;
        }
      }
    }
  }

  /** A tag-free text: no `>` follows its first `<`. */
  predicate NoTag(t: string)
  {
    t == [] || (if t[0] == '<' then '>' !in t else NoTag(t[1..]))
  }

  /** A text is tag-free exactly when no `<` in it has a `>` after it. */
  lemma {:induction false} NoTagMeans(t: string)
    ensures NoTag(t) <==> forall i, j :: 0 <= i < j < |t| && t[i] == '<' ==> t[j] != '>'
  {
    if t != [] {
      NoTagMeans(t[1..]);
      if t[0] == '<' {
        if forall i, j :: 0 <= i < j < |t| && t[i] == '<' ==> t[j] != '>' {
          forall k | 0 <= k < |t| ensures t[k] != '>' {
            if k > 0 {
              assert t[0] == '<';
            }
          }
        }
      } else {
        var u := t[1..];
        if forall i, j :: 0 <= i < j < |u| && u[i] == '<' ==> u[j] != '>' {
          forall i, j | 0 <= i < j < |t| && t[i] == '<' ensures t[j] != '>' {
            assert t[i] == u[i - 1] && t[j] == u[j - 1];
          }
        }
      }
    }
  }

  lemma {:induction false} StripTagsSubset(s: string)
    decreases |s|
    ensures forall c :: c in StripTags(s) ==> c in s
  {
    if s != [] {
      if s[0] == '<' && IndexOfChar(s, '>', 1).Some? {
        StripTagsSubset(s[IndexOfChar(s, '>', 1).value + 1..]);
      } else {
        StripTagsSubset(s[1..]);
      }
    }
  }

  /** Removing the tags leaves no tag behind. */
  lemma {:induction false} StripTagsNoTag(s: string)
    decreases |s|
    ensures NoTag(StripTags(s))
  {
    if s != [] {
      if s[0] == '<' && IndexOfChar(s, '>', 1).Some? {
        StripTagsNoTag(s[IndexOfChar(s, '>', 1).value + 1..]);
      } else {
        var rest := StripTags(s[1..]);
        var r := StripTags(s);
        assert r == [s[0]] + rest && r[1..] == rest;
        StripTagsNoTag(s[1..]);
        if s[0] == '<' {
          IndexOfCharFirst(s, '>', 1);
          StripTagsSubset(s[1..]);
          assert '>' !in s[1..];
          assert '>' !in rest;
        }
      }
    }
  }

  /** A tag-free text is left as it is: the replacement removes nothing else. */
  lemma {:induction false} StripTagsKeeps(s: string)
    requires NoTag(s)
    decreases |s|
    ensures StripTags(s) == s
  {
    if s != [] {
      NoTagSlice(s, 1, |s|);
      assert s[1..|s|] == s[1..];
      if s[0] == '<' {
        IndexOfCharFirst(s, '>', 1);
        assert IndexOfChar(s, '>', 1).None?;
      }
      StripTagsKeeps(s[1..]);
      assert s == [s[0]] + s[1..];
    }
  }

  /** Text without `<` in front of the rest is kept as it is. */
  lemma {:induction false} StripTagsPrefix(t: string, s: string)
    requires '<' !in t
    ensures StripTags(t + s) == t + StripTags(s)
  {
    if t == [] {
      assert t + s == s;
    } else {
      var u := t + s;
      assert u[0] == t[0] && u[1..] == t[1..] + s;
      StripTagsPrefix(t[1..], s);
      assert t == [t[0]] + t[1..];
    }
  }

  /** A whole tag `<…>` in front of the rest is removed, up to its first `>`. */
  lemma {:induction false} StripTagsTag(t: string, s: string)
    requires '>' !in t
    ensures StripTags("<" + t + ">" + s) == StripTags(s)
  {
    var u := "<" + t + ">" + s;
    IndexOfCharFirst(u, '>', 1);
    assert u[|t| + 1] == '>';
    forall i | 1 <= i < |t| + 1 ensures u[i] != '>' {
      assert u[i] == t[i - 1];
    }
    assert IndexOfChar(u, '>', 1) == Some(|t| + 1);
    assert u[|t| + 2..] == s;
  }

  /** Removing the tags a second time changes nothing. */
  lemma {:induction false} StripTagsIdempotent(s: string)
    ensures StripTags(StripTags(s)) == StripTags(s)
  {
    StripTagsNoTag(s);
    StripTagsKeeps(StripTags(s));
  }

  /** A cell text is trimmed and tag-free. */
  predicate Clean(t: string)
  {
    (t != [] ==> !IsWhiteSpace(t[0]) && !IsWhiteSpace(t[|t| - 1])) && NoTag(t)
  }

  /** A piece of a tag-free text is tag-free. */
  lemma {:induction false} NoTagSlice(t: string, lo: nat, hi: nat)
    requires NoTag(t) && lo <= hi <= |t|
    ensures NoTag(t[lo..hi])
  {
    var u := t[lo..hi];
    NoTagMeans(t);
    NoTagMeans(u);
    forall i, j | 0 <= i < j < |u| && u[i] == '<' ensures u[j] != '>' {
      assert u[i] == t[lo + i] && u[j] == t[lo + j];
    }
  }

  /** Trimming a tag-free text keeps it tag-free. */
  lemma {:induction false} NoTagTrim(x: string)
    requires NoTag(x)
    ensures NoTag(Trim(x))
  {
    var a, t := LeadingSpace(x), Trim(x);
    assert t == x[a..a + |t|];
    NoTagSlice(x, a, a + |t|);
  }

  lemma {:induction false} CellTextClean(cellBody: string)
    ensures Clean(CellText(cellBody))
  {
    StripTagsNoTag(cellBody);
    NoTagTrim(StripTags(cellBody));
  }

  lemma {:induction false} CleanCons(x: string, rest: seq<string>)
    requires Clean(x) && forall t :: t in rest ==> Clean(t)
    ensures forall t :: t in [x] + rest ==> Clean(t)
  {
  }

  lemma {:induction false} CellsClean(rowBody: string, from: nat)
    requires from <= |rowBody|
    decreases |rowBody| - from
    ensures forall t :: t in CellsFrom(rowBody, from) ==> Clean(t)
  {
    var m := Exec(rowBody, "td", from);
    if m.Some? {
      var x, rest := CellText(Body(rowBody, m.value)), CellsFrom(rowBody, m.value.end);
      assert CellsFrom(rowBody, from) == [x] + rest;
      CellsClean(rowBody, m.value.end);
      CellTextClean(Body(rowBody, m.value));
      CleanCons(x, rest);
    }
  }

  /** The shape of every kept row: `[ticker, name, quantity, weight]` with trimmed,
      tag-free fields; the ticker is neither empty nor the header text, and the name is
      not the cash line. */
  predicate WellShaped(row: seq<string>)
  {
    && |row| == 4 && row[0] != "" && row[0] != HEADER_TICKER && row[1] != CASH_NAME
    && forall t :: t in row ==> Clean(t)
  }

  /** A row selected from clean cells is well shaped. */
  lemma {:induction false} RowOfShape(cells: seq<string>)
    requires forall t :: t in cells ==> Clean(t)
    ensures RowOf(cells).Some? ==> WellShaped(RowOf(cells).value)
  {
    if RowOf(cells).Some? {
      var row := RowOf(cells).value;
      assert row == [cells[0], cells[1], cells[2], cells[4]];
      assert forall t :: t in row ==> t in cells;
    }
  }

  /** Every row kept is well shaped. */
  lemma {:induction false} RowsShape(html: string, from: nat)
    requires from <= |html|
    decreases |html| - from
    ensures forall row :: row in RowsFrom(html, from) ==> WellShaped(row)
  {
    var m := Exec(html, "tr", from);
    if m.Some? {
      RowsShape(html, m.value.end);
      var body := Body(html, m.value);
      CellsClean(body, 0);
      RowOfShape(Cells(body));
    }
  }

  /** A table row yields at most one kept row. */
  lemma {:induction false} RowsCount(html: string, from: nat)
    requires from <= |html|
    decreases |html| - from
    ensures |RowsFrom(html, from)| <= |Matches(html, "tr", from)|
  {
    var m := Exec(html, "tr", from);
    if m.Some? {
      RowsCount(html, m.value.end);
    }
  }

  /** What each table row a `<tr>` loop visits from `from` on yields: a kept row, or
      nothing. */
  function Candidates(html: string, from: nat): (r: seq<Option<seq<string>>>)
    requires from <= |html|
    decreases |html| - from
  {
    match Exec(html, "tr", from)
    case None => []
    case Some(m) => [RowAt(html, m)] + Candidates(html, m.end)
  }

  /** There is one candidate per table row. */
  lemma {:induction false} CandidatesCount(html: string, from: nat)
    requires from <= |html|
    decreases |html| - from
    ensures |Candidates(html, from)| == |Matches(html, "tr", from)|
  {
    var m := Exec(html, "tr", from);
    if m.Some? {
      CandidatesCount(html, m.value.end);
    }
  }

  /** The rows kept are exactly the candidates that hold a row. */
  lemma {:induction false} RowsOfCandidates(html: string, from: nat, row: seq<string>)
    requires from <= |html|
    decreases |html| - from
    ensures row in RowsFrom(html, from) <==> Some(row) in Candidates(html, from)
  {
    var m := Exec(html, "tr", from);
    if m.Some? {
      RowsOfCandidates(html, m.value.end, row);
      assert RowsFrom(html, from) == RowList(RowAt(html, m.value)) + RowsFrom(html, m.value.end);
      assert Candidates(html, from) == [RowAt(html, m.value)] + Candidates(html, m.value.end);
    }
  }

  /** The rows present among a list of candidates, in their order. */
  function Kept(c: seq<Option<seq<string>>>): seq<seq<string>>
  {
    if c == [] then [] else RowList(c[0]) + Kept(c[1..])
  }

  /** The rows kept follow the document order of the table rows: they are the present
      candidates, in order. */
  lemma {:induction false} RowsInOrder(html: string, from: nat)
    requires from <= |html|
    decreases |html| - from
    ensures RowsFrom(html, from) == Kept(Candidates(html, from))
  {
    var m := Exec(html, "tr", from);
    if m.Some? {
      var c := Candidates(html, from);
      RowsInOrder(html, m.value.end);
      assert c == [RowAt(html, m.value)] + Candidates(html, m.value.end);
      assert c[0] == RowAt(html, m.value) && c[1..] == Candidates(html, m.value.end);
    }
  }

  /** The `i`-th candidate is the row selected from the cells of the `i`-th table row. */
  lemma {:induction false} CandidatesAt(html: string, from: nat)
    requires from <= |html|
    decreases |html| - from
    ensures |Candidates(html, from)| == |Matches(html, "tr", from)|
    ensures forall i :: 0 <= i < |Candidates(html, from)| ==>
              Candidates(html, from)[i] == RowAt(html, Matches(html, "tr", from)[i])
  {
    var m := Exec(html, "tr", from);
    if m.Some? {
      var c, ms := Candidates(html, from), Matches(html, "tr", from);
      var c1, ms1 := Candidates(html, m.value.end), Matches(html, "tr", m.value.end);
      CandidatesAt(html, m.value.end);
      assert c == [RowAt(html, m.value)] + c1;
      assert ms == [m.value] + ms1;
      forall i | 0 <= i < |c| ensures c[i] == RowAt(html, ms[i]) {
        if i > 0 {
          assert c[i] == c1[i - 1] && ms[i] == ms1[i - 1];
        }
      }
    }
  }

  /** The page's rows: at most one per table row, each well shaped, and exactly the rows
      the table rows' cells select, in the order of the table rows (one candidate per
      table row, selected from that row's own cells). */
  lemma {:induction false} PageRowsProperties(html: string)
    ensures |PageRows(html)| <= |Matches(html, "tr", 0)|
    ensures forall row :: row in PageRows(html) ==> WellShaped(row)
    ensures forall row :: row in PageRows(html) <==> Some(row) in Candidates(html, 0)
    ensures |Candidates(html, 0)| == |Matches(html, "tr", 0)|
    ensures forall i :: 0 <= i < |Candidates(html, 0)| ==>
              Candidates(html, 0)[i] == RowAt(html, Matches(html, "tr", 0)[i])
    ensures PageRows(html) == Kept(Candidates(html, 0))
  {
    RowsInOrder(html, 0);
    CandidatesAt(html, 0);
    RowsCount(html, 0);
    RowsShape(html, 0);
    CandidatesCount(html, 0);
    forall row ensures row in PageRows(html) <==> Some(row) in Candidates(html, 0) {
      RowsOfCandidates(html, 0, row);
    }
  }

  // ----- the imperative procedure -----

  lemma {:induction false} AppendAssoc<T>(a: seq<T>, b: seq<T>, c: seq<T>)
    ensures a + (b + c) == (a + b) + c
  {
  }

  /** One step of the `<tr>` loop. */
  lemma {:induction false} RowsStep(html: string, from: nat)
    requires from <= |html|
    ensures Exec(html, "tr", from).None? ==> RowsFrom(html, from) == []
    ensures Exec(html, "tr", from).Some? ==>
              RowsFrom(html, from) == RowList(RowAt(html, Exec(html, "tr", from).value))
                                      + RowsFrom(html, Exec(html, "tr", from).value.end)
  {
  }

  /** The inner loop: the cell texts of one row body. */
  method RowCells(rowBody: string) returns (cells: seq<string>)
    ensures cells == Cells(rowBody)
  {
    cells := [];
    var lastIndex := 0;
    while true
      invariant lastIndex <= |rowBody|
      invariant cells + CellsFrom(rowBody, lastIndex) == Cells(rowBody)
      decreases |rowBody| - lastIndex
    {
      var tdMatch := Exec(rowBody, "td", lastIndex);
      if tdMatch.None? {
        assert cells + [] == cells;
        return;
      }
      var m := tdMatch.value;
      var text := CellText(rowBody[m.bodyStart..m.bodyEnd]);
      assert CellsFrom(rowBody, lastIndex) == [text] + CellsFrom(rowBody, m.end);
      AppendAssoc(cells, [text], CellsFrom(rowBody, m.end));
      cells := cells + [text];
      lastIndex := m.end;
    }
  }

  /** `parseETFPage(html)`: the outer loop over the table rows. */
  method ParseEtfPage(html: string) returns (rows: seq<seq<string>>)
    ensures rows == PageRows(html)
  {
    rows := [];
    var lastIndex := 0;
    while true
      invariant lastIndex <= |html|
      invariant rows + RowsFrom(html, lastIndex) == PageRows(html)
      decreases |html| - lastIndex
    {
      var trMatch := Exec(html, "tr", lastIndex);
      RowsStep(html, lastIndex);
      if trMatch.None? {
        assert rows + [] == rows;
        return;
      }
      var m := trMatch.value;
      var cells := RowCells(html[m.bodyStart..m.bodyEnd]);
      ghost var rows0 := rows;
      if |cells| >= 5 {
        var ticker, name, qty, weight := cells[0], cells[1], cells[2], cells[4];
        if ticker != "" && ticker != HEADER_TICKER && name != CASH_NAME {
          rows := rows + [[ticker, name, qty, weight]];
        }
      }
      assert rows == rows0 + RowList(RowOf(cells));
      assert RowOf(cells) == RowAt(html, m);
      AppendAssoc(rows0, RowList(RowAt(html, m)), RowsFrom(html, m.end));
      lastIndex := m.end;
    }
  }
}
