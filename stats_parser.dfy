/**
 * The tournament statistics page: locating it from a tournament link,
 * mapping header captions to columns, reading player rows and dropping
 * repeated players.
 */
module StatsParser {
  import opened Wrappers
  import opened Text
  import opened Seqs
  import opened Utils

  // ---------------------------------------------------------------------
  // extractTournamentId / getStatsUrl
  // ---------------------------------------------------------------------

  /**
   * `/[?&]id=([^&]+)/` can match at `i`: a `?` or `&`, then `id=`, then at
   * least one character other than `&`.
   */
  predicate IdMarkerAt(url: string, i: nat) {
    && i + 4 < |url|
    && (url[i] == '?' || url[i] == '&')
    && url[i + 1] == 'i' && url[i + 2] == 'd' && url[i + 3] == '='
    && url[i + 4] != '&'
  }

  /** The end of the run of characters other than `&` that starts at `j`. */
  function AmpRunEnd(url: string, j: nat): (r: nat)
    requires j <= |url|
    ensures j <= r <= |url|
    ensures forall k | j <= k < r :: url[k] != '&'
    ensures r < |url| ==> url[r] == '&'
    decreases |url| - j
  {
    if j < |url| && url[j] != '&' then AmpRunEnd(url, j + 1) else j
  }

  /** The leftmost position at or after `from` where the pattern matches. */
  function FirstIdMarker(url: string, from: nat): (r: Option<nat>)
    ensures r.Some? ==> from <= r.value && IdMarkerAt(url, r.value)
    ensures r.Some? ==> forall i | from <= i < r.value :: !IdMarkerAt(url, i)
    ensures r.None? ==> forall i | from <= i :: !IdMarkerAt(url, i)
    decreases |url| - from
  {
    if from >= |url| then None
    else if IdMarkerAt(url, from) then Some(from)
    else FirstIdMarker(url, from + 1)
  }

  /** `extractTournamentId(url)`: the first capture group, or `null`. */
  function ExtractTournamentId(url: string): (r: Option<string>)
    ensures r.None? <==> forall i :: !IdMarkerAt(url, i)
    ensures r.Some? ==> r.value != [] && '&' !in r.value
    ensures r.Some? ==> FirstIdMarker(url, 0).Some?
    ensures r.Some? ==> var i := FirstIdMarker(url, 0).value; r.value == url[i + 4..AmpRunEnd(url, i + 4)]
  {
    match FirstIdMarker(url, 0)
    case None => None
    case Some(i) =>
      var id := url[i + 4..AmpRunEnd(url, i + 4)];
      assert id[0] == url[i + 4];
      assert forall k | 0 <= k < |id| :: id[k] == url[i + 4 + k];
      Some(id)
  }

  /** `id=` followed directly by `&` does not match, so an empty id is no id. */
  lemma EmptyIdIsNoId()
    ensures ExtractTournamentId("t?id=&x=1") == None
  {
    var url := "t?id=&x=1";
    forall i | 0 <= i
      ensures !IdMarkerAt(url, i)
    {
      if i + 4 < |url| {
        assert url[i] == '?' ==> i == 1;
        assert url[i] == '&' ==> i == 5;
      }
    }
  }

  /** The statistics page, without its query. */
  const StatsPage: string := "https://" + "n01darts.com" + "/n01/" + "tournament/" + "t_stats.html"

  /** `getStatsUrl(tournamentUrl)`: an error when the link carries no id. */
  function GetStatsUrl(tournamentUrl: string): (r: Result<string, string>)
    ensures r.Failure? <==> ExtractTournamentId(tournamentUrl).None?
    ensures r.Failure? ==> r.error == "Cannot extract tournament ID from URL: " + tournamentUrl
    ensures r.Success? ==> r.value == StatsPage + "?id=" + ExtractTournamentId(tournamentUrl).value
  {
    match ExtractTournamentId(tournamentUrl)
    case None => Failure("Cannot extract tournament ID from URL: " + tournamentUrl)
    case Some(id) => Success(StatsPage + "?id=" + id)
  }

  /** No `?` and no `&`: text that cannot start a match of the id pattern. */
  predicate Plain(s: string) {
    forall i | 0 <= i < |s| :: s[i] != '?' && s[i] != '&'
  }

  lemma PlainConcat(a: string, b: string)
    requires Plain(a) && Plain(b)
    ensures Plain(a + b)
  {
    forall i | 0 <= i < |a + b|
      ensures (a + b)[i] != '?' && (a + b)[i] != '&'
    {
      if i >= |a| {
        assert (a + b)[i] == b[i - |a|];
      }
    }
  }

  lemma StatsPagePlain()
    ensures Plain(StatsPage)
  {
    assert Plain("https://");
    assert Plain("n01darts.com");
    assert Plain("/n01/");
    assert Plain("tournament/");
    assert Plain("t_stats.html");
    PlainConcat("https://", "n01darts.com");
    PlainConcat("https://" + "n01darts.com", "/n01/");
    PlainConcat("https://" + "n01darts.com" + "/n01/", "tournament/");
    PlainConcat("https://" + "n01darts.com" + "/n01/" + "tournament/", "t_stats.html");
  }

  /** Behind a page without `?` or `&`, the id is read back from its own query. */
  lemma {:induction false} ExtractFromQuery(page: string, id: string)
    requires Plain(page) && id != [] && '&' !in id
    ensures ExtractTournamentId(page + "?id=" + id) == Some(id)
  {
    var url := page + "?id=" + id;
    var p := |page|;
    assert url[p] == '?' && url[p + 1] == 'i' && url[p + 2] == 'd' && url[p + 3] == '=';
    assert url[p + 4] == id[0];
    assert IdMarkerAt(url, p);
    forall i | 0 <= i < p
      ensures !IdMarkerAt(url, i)
    {
      assert url[i] == page[i];
    }
    FirstIdMarkerAt(url, 0, p);
    forall k | p + 4 <= k < |url|
      ensures url[k] != '&'
    {
      assert url[k] == id[k - p - 4];
    }
    AmpRunToEnd(url, p + 4);
    assert url[p + 4..|url|] == id;
    assert FirstIdMarker(url, 0) == Some(p);
  }

  lemma {:induction false} FirstIdMarkerAt(url: string, from: nat, i: nat)
    requires from <= i && IdMarkerAt(url, i)
    requires forall k | from <= k < i :: !IdMarkerAt(url, k)
    ensures FirstIdMarker(url, from) == Some(i)
    decreases i - from
  {
    if from < i {
      FirstIdMarkerAt(url, from + 1, i);
    }
  }

  lemma {:induction false} AmpRunToEnd(url: string, j: nat)
    requires j <= |url|
    requires forall k | j <= k < |url| :: url[k] != '&'
    ensures AmpRunEnd(url, j) == |url|
    decreases |url| - j
  {
    if j < |url| {
      AmpRunToEnd(url, j + 1);
    }
  }

  /**
   * The statistics link leads back to the same tournament:
   * `extractTournamentId(getStatsUrl(u)) == extractTournamentId(u)`.
   */
  lemma StatsUrlRoundTrip(tournamentUrl: string)
    requires GetStatsUrl(tournamentUrl).Success?
    ensures ExtractTournamentId(GetStatsUrl(tournamentUrl).value) == ExtractTournamentId(tournamentUrl)
  {
    StatsPagePlain();
    ExtractFromQuery(StatsPage, ExtractTournamentId(tournamentUrl).value);
  }

  // ---------------------------------------------------------------------
  // findColumn / columnMap
  // ---------------------------------------------------------------------

  /** A string pattern matches a header that equals or contains it. */
  predicate ColumnMatches(header: string, pattern: string) {
    header == pattern || Contains(header, pattern)
  }

  /** The equality test is subsumed by containment. */
  lemma ColumnMatchesIsContains(header: string, pattern: string)
    ensures ColumnMatches(header, pattern) <==> Contains(header, pattern)
  {
    if header == pattern {
      assert OccursAt(header, pattern, 0) by {
        assert header[0..|pattern|] == header;
      }
    }
  }

  /** `headers.findIndex(h => matches(h, pattern))`, searching from `from`. */
  function FindIndex(headers: seq<string>, pattern: string, from: nat): (r: int)
    requires from <= |headers|
    ensures r == -1 || (from <= r < |headers| && ColumnMatches(headers[r], pattern))
    ensures r == -1 ==> forall i | from <= i < |headers| :: !ColumnMatches(headers[i], pattern)
    ensures r != -1 ==> forall i | from <= i < r :: !ColumnMatches(headers[i], pattern)
    decreases |headers| - from
  {
    if from == |headers| then -1
    else if ColumnMatches(headers[from], pattern) then from
    else FindIndex(headers, pattern, from + 1)
  }

  /** The column `findColumn` settles on when it starts from pattern `p`. */
  function FirstColumnFrom(headers: seq<string>, patterns: seq<string>, p: nat): (r: int)
    requires p <= |patterns|
    ensures r == -1 || 0 <= r < |headers|
    ensures r == -1 <==>
      forall q, i | p <= q < |patterns| && 0 <= i < |headers| :: !ColumnMatches(headers[i], patterns[q])
    decreases |patterns| - p
  {
    if p == |patterns| then -1
    else
      var idx := FindIndex(headers, patterns[p], 0);
      if idx != -1 then idx else FirstColumnFrom(headers, patterns, p + 1)
  }

  /** `findColumn(patterns)` over the lower-cased headers. */
  function FirstColumn(headers: seq<string>, patterns: seq<string>): int {
    FirstColumnFrom(headers, patterns, 0)
  }

  /**
   * Pattern order has priority: the column found matches some pattern `q`,
   * no header matches an earlier pattern, and no earlier header matches `q`.
   */
  lemma {:induction false} FirstColumnPriority(headers: seq<string>, patterns: seq<string>, p: nat) returns (q: nat)
    requires p <= |patterns|
    requires FirstColumnFrom(headers, patterns, p) != -1
    ensures p <= q < |patterns|
    ensures ColumnMatches(headers[FirstColumnFrom(headers, patterns, p)], patterns[q])
    ensures forall i | 0 <= i < FirstColumnFrom(headers, patterns, p) :: !ColumnMatches(headers[i], patterns[q])
    ensures forall q', i | p <= q' < q && 0 <= i < |headers| :: !ColumnMatches(headers[i], patterns[q'])
    decreases |patterns| - p
  {
    var idx := FindIndex(headers, patterns[p], 0);
    if idx != -1 {
      q := p;
    } else {
      q := FirstColumnPriority(headers, patterns, p + 1);
    }
  }

  /** `findColumn(patterns)`: try each pattern in turn and stop at the first that finds a header. */
  method FindColumn(headers: seq<string>, patterns: seq<string>) returns (idx: int)
    ensures idx == FirstColumn(headers, patterns)
  {
    for p := 0 to |patterns|
      invariant FirstColumnFrom(headers, patterns, p) == FirstColumn(headers, patterns)
    {
      var found := FindIndex(headers, patterns[p], 0);
      if found != -1 {
        return found;
      }
    }
    return -1;
  }

  /** The column of each statistic; -1 where no header matched. */
  datatype ColumnMap = ColumnMap(
    rank: int, name: int,
    matchesPlayed: int, matchesWon: int, legsPlayed: int, legsWon: int,
    scores100: int, scores140: int, scores180: int,
    highFinish: int, bestLeg: int, worstLeg: int,
    avg3Darts: int, avgFirst9: int,
    totalScore: int, totalDarts: int)

  const RankPatterns: seq<string> := ["#", "rank", "pos"]
  const NamePatterns: seq<string> := ["name", "player", "entry"]
  const MatchesPlayedPatterns: seq<string> := ["matches played", "mp"]
  const MatchesWonPatterns: seq<string> := ["matches won", "mw"]
  const LegsPlayedPatterns: seq<string> := ["legs played", "lp"]
  const LegsWonPatterns: seq<string> := ["legs won", "lw"]
  const Scores100Patterns: seq<string> := ["100+"]
  const Scores140Patterns: seq<string> := ["140+"]
  const Scores180Patterns: seq<string> := ["180's", "180"]
  const HighFinishPatterns: seq<string> := ["high finish", "hf", "checkout"]
  const BestLegPatterns: seq<string> := ["best leg", "best", "min"]
  const WorstLegPatterns: seq<string> := ["worst leg", "worst", "max"]
  const Avg3DartsPatterns: seq<string> := ["3 darts average", "3da", "3 dart"]
  const AvgFirst9Patterns: seq<string> := ["first 9 average", "first 9", "9da"]
  const TotalScorePatterns: seq<string> := ["total score"]
  const TotalDartsPatterns: seq<string> := ["total darts"]

  /** The header captions, trimmed and lower-cased. */
  function HeaderKeys(captions: seq<string>): (r: seq<string>)
    ensures |r| == |captions|
    ensures forall i | 0 <= i < |r| :: r[i] == Lower(Trim(captions[i]))
  {
    seq(|captions|, i requires 0 <= i < |captions| => Lower(Trim(captions[i])))
  }

  /** The column map the object literal builds. */
  function ColumnMapOf(headers: seq<string>): (r: ColumnMap)
    ensures ColumnsInRange(r, |headers|)
    ensures r.name == -1 <==>
      forall q, i | 0 <= q < |NamePatterns| && 0 <= i < |headers| :: !ColumnMatches(headers[i], NamePatterns[q])
  {
    ColumnMap(
      FirstColumn(headers, RankPatterns), FirstColumn(headers, NamePatterns),
      FirstColumn(headers, MatchesPlayedPatterns), FirstColumn(headers, MatchesWonPatterns),
      FirstColumn(headers, LegsPlayedPatterns), FirstColumn(headers, LegsWonPatterns),
      FirstColumn(headers, Scores100Patterns), FirstColumn(headers, Scores140Patterns),
      FirstColumn(headers, Scores180Patterns),
      FirstColumn(headers, HighFinishPatterns), FirstColumn(headers, BestLegPatterns),
      FirstColumn(headers, WorstLegPatterns),
      FirstColumn(headers, Avg3DartsPatterns), FirstColumn(headers, AvgFirst9Patterns),
      FirstColumn(headers, TotalScorePatterns), FirstColumn(headers, TotalDartsPatterns))
  }

  /** Every column of the map is a header index or -1. */
  predicate ColumnsInRange(m: ColumnMap, n: nat) {
    && -1 <= m.rank < n && -1 <= m.name < n
    && -1 <= m.matchesPlayed < n && -1 <= m.matchesWon < n
    && -1 <= m.legsPlayed < n && -1 <= m.legsWon < n
    && -1 <= m.scores100 < n && -1 <= m.scores140 < n && -1 <= m.scores180 < n
    && -1 <= m.highFinish < n && -1 <= m.bestLeg < n && -1 <= m.worstLeg < n
    && -1 <= m.avg3Darts < n && -1 <= m.avgFirst9 < n
    && -1 <= m.totalScore < n && -1 <= m.totalDarts < n
  }

  /** `const columnMap = { rank: findColumn([...]), ... }`, one `findColumn` per statistic. */
  method BuildColumnMap(headers: seq<string>) returns (m: ColumnMap)
    ensures m == ColumnMapOf(headers)
    ensures ColumnsInRange(m, |headers|)
  {
    var rank := FindColumn(headers, RankPatterns);
    var name := FindColumn(headers, NamePatterns);
    var matchesPlayed := FindColumn(headers, MatchesPlayedPatterns);
    var matchesWon := FindColumn(headers, MatchesWonPatterns);
    var legsPlayed := FindColumn(headers, LegsPlayedPatterns);
    var legsWon := FindColumn(headers, LegsWonPatterns);
    var scores100 := FindColumn(headers, Scores100Patterns);
    var scores140 := FindColumn(headers, Scores140Patterns);
    var scores180 := FindColumn(headers, Scores180Patterns);
    var highFinish := FindColumn(headers, HighFinishPatterns);
    var bestLeg := FindColumn(headers, BestLegPatterns);
    var worstLeg := FindColumn(headers, WorstLegPatterns);
    var avg3Darts := FindColumn(headers, Avg3DartsPatterns);
    var avgFirst9 := FindColumn(headers, AvgFirst9Patterns);
    var totalScore := FindColumn(headers, TotalScorePatterns);
    var totalDarts := FindColumn(headers, TotalDartsPatterns);
    m := ColumnMap(rank, name, matchesPlayed, matchesWon, legsPlayed, legsWon,
                   scores100, scores140, scores180, highFinish, bestLeg, worstLeg,
                   avg3Darts, avgFirst9, totalScore, totalDarts);
  }

  // ---------------------------------------------------------------------
  // Name column found from the first data row
  // ---------------------------------------------------------------------

  /** `td.textContent?.trim()?.substring(0, 30) || ''` */
  function SampleText(text: string): (r: string)
    ensures |r| <= 30
  {
    Take(Trim(text), 30)
  }

  predicate HasAsciiLetter(s: string) {
    exists i | 0 <= i < |s| :: IsAsciiLetter(s[i])
  }

  /** `cellText && /[a-zA-Z]/.test(cellText) && !/^\d+$/.test(cellText)` */
  predicate NameLike(cellText: string) {
    cellText != [] && HasAsciiLetter(cellText) && !(cellText != [] && AllDigits(cellText))
  }

  /** A letter is never a digit, so the digits test never rejects a text with a letter. */
  lemma NameLikeIsHasLetter(cellText: string)
    ensures NameLike(cellText) <==> HasAsciiLetter(cellText)
  {
    if HasAsciiLetter(cellText) {
      var i :| 0 <= i < |cellText| && IsAsciiLetter(cellText[i]);
      assert !IsDigit(cellText[i]);
    }
  }

  /** The first sample cell at or after `from` that looks like a name, or -1. */
  function FirstNameLike(sample: seq<string>, from: nat): (r: int)
    ensures r == -1 ==> forall i | from <= i < |sample| :: !NameLike(sample[i])
    ensures r != -1 ==>
      from <= r < |sample| && NameLike(sample[r]) && forall i | from <= i < r :: !NameLike(sample[i])
    decreases |sample| - from
  {
    if from >= |sample| then -1
    else if NameLike(sample[from]) then from
    else FirstNameLike(sample, from + 1)
  }

  /**
   * The name column after the content search: a mapped column is kept,
   * otherwise the first sample cell that looks like a name, otherwise -1.
   */
  function FallbackColumn(nameColumn: int, sample: seq<string>): (r: int)
    ensures nameColumn != -1 ==> r == nameColumn
    ensures nameColumn == -1 && r == -1 ==> forall i | 0 <= i < |sample| :: !NameLike(sample[i])
    ensures nameColumn == -1 && r != -1 ==>
      0 <= r < |sample| && NameLike(sample[r]) && forall i | 0 <= i < r :: !NameLike(sample[i])
  {
    if nameColumn != -1 then nameColumn else FirstNameLike(sample, 0)
  }

  /** The search loop over the sample row, which stops at the first name-like cell. */
  method NameColumnFallback(nameColumn: int, sample: seq<string>) returns (r: int)
    ensures r == FallbackColumn(nameColumn, sample)
  {
    r := nameColumn;
    if nameColumn == -1 && |sample| > 0 {
      var i := 0;
      while i < |sample|
        invariant 0 <= i <= |sample|
        invariant forall k | 0 <= k < i :: !NameLike(sample[k])
      {
        var cellText := sample[i];
        if NameLike(cellText) {
          r := i;
          break;
        }
        i := i + 1;
      }
    }
  }

  // ---------------------------------------------------------------------
  // Rows
  // ---------------------------------------------------------------------

  /** A data cell: its text and, when it holds a link, the link's text. */
  datatype StatsCell = StatsCell(text: string, link: Option<string>)

  /** One player's integer statistics; `None` is `null`. */
  datatype PlayerStats = PlayerStats(
    playerName: string,
    matchesPlayed: Option<int>, matchesWon: Option<int>,
    legsPlayed: Option<int>, legsWon: Option<int>,
    scores100Plus: Option<int>, scores140Plus: Option<int>, scores180: Option<int>,
    highFinish: Option<int>, bestLeg: Option<int>, worstLeg: Option<int>,
    totalScore: Option<int>, totalDarts: Option<int>)

  /** `getValue(index)`: `null` outside the row, otherwise the trimmed text. */
  function CellValue(cells: seq<StatsCell>, index: int): (r: Option<string>)
    ensures r.None? <==> index < 0 || index >= |cells|
    ensures r.Some? ==> r.value == Trim(cells[index].text)
  {
    if index < 0 || index >= |cells| then None else Some(Trim(cells[index].text))
  }

  /** `val.replace(/[^\d-]/g, '')` */
  function KeepNumberChars(s: string): (r: string)
    ensures forall i | 0 <= i < |r| :: IsDigit(r[i]) || r[i] == '-'
    ensures forall c :: multiset(r)[c] == if IsDigit(c) || c == '-' then multiset(s)[c] else 0
    ensures AllDigits(s) ==> r == s
  {
    if s == [] then []
    else
      var rest := KeepNumberChars(s[1..]);
      assert s == [s[0]] + s[1..];
      if IsDigit(s[0]) || s[0] == '-' then [s[0]] + rest else rest
  }

  /** The filter works character by character, so it keeps the order of the input. */
  lemma {:induction false} KeepNumberCharsConcat(a: string, b: string)
    ensures KeepNumberChars(a + b) == KeepNumberChars(a) + KeepNumberChars(b)
    decreases |a|
  {
    if a == [] {
      assert a + b == b;
    } else {
      assert (a + b)[0] == a[0];
      assert (a + b)[1..] == a[1..] + b;
      KeepNumberCharsConcat(a[1..], b);
    }
  }

  /** Text without digits and `-` is removed entirely. */
  lemma {:induction false} KeepNumberCharsOfSeparators(t: string)
    requires forall k | 0 <= k < |t| :: !IsDigit(t[k]) && t[k] != '-'
    ensures KeepNumberChars(t) == []
    decreases |t|
  {
    if t != [] {
      KeepNumberCharsOfSeparators(t[1..]);
    }
  }

  /** `parseNumber(index)` */
  function ParseNumber(cells: seq<StatsCell>, index: int): (r: Option<int>)
    ensures index < 0 || index >= |cells| ==> r.None?
    ensures 0 <= index < |cells| && Trim(cells[index].text) in {"", "-"} ==> r.None?
  {
    match CellValue(cells, index)
    case None => None
    case Some(val) =>
      if val == [] || val == "-" then None else ParseIntDecimal(KeepNumberChars(val))
  }

  /** A cell of plain digits reads as its decimal value. */
  lemma ParseNumberOfDigits(cells: seq<StatsCell>, index: int)
    requires 0 <= index < |cells|
    requires Trim(cells[index].text) != [] && AllDigits(Trim(cells[index].text))
    ensures ParseNumber(cells, index) == Some(DigitsValue(Trim(cells[index].text)))
  {
    var val := Trim(cells[index].text);
    assert val != "-" by {
      assert IsDigit(val[0]);
    }
    ParseIntDecimalOfDigits(val);
  }

  /** A thousands separator between digit groups is dropped: `12,345` reads as 12345. */
  lemma ParseNumberOfSeparated(cells: seq<StatsCell>, index: int, d1: string, c: char, d2: string)
    requires 0 <= index < |cells|
    requires d1 != [] && AllDigits(d1) && d2 != [] && AllDigits(d2)
    requires !IsDigit(c) && c != '-'
    requires Trim(cells[index].text) == d1 + [c] + d2
    ensures ParseNumber(cells, index) == Some(DigitsValue(d1 + d2))
  {
    var val := Trim(cells[index].text);
    assert val[0] == d1[0];
    SeparatorDropped(d1, c, d2);
    ParseIntDecimalOfDigits(d1 + d2);
  }

  lemma SeparatorDropped(d1: string, c: char, d2: string)
    requires AllDigits(d1) && AllDigits(d2)
    requires !IsDigit(c) && c != '-'
    ensures KeepNumberChars(d1 + [c] + d2) == d1 + d2
    ensures AllDigits(d1 + d2)
  {
    SeparatorAfterDigits(d1, c);
    KeepNumberCharsConcat(d1 + [c], d2);
    AllDigitsConcat(d1, d2);
  }

  lemma SeparatorAfterDigits(d: string, c: char)
    requires AllDigits(d) && !IsDigit(c) && c != '-'
    ensures KeepNumberChars(d + [c]) == d
  {
    KeepNumberCharsOfSeparators([c]);
    KeepNumberCharsConcat(d, [c]);
    assert d + [] == d;
  }

  /** A unit after the number is dropped: `15 darts` reads as 15. */
  lemma ParseNumberIgnoresSuffix(cells: seq<StatsCell>, index: int, d: string, t: string)
    requires 0 <= index < |cells|
    requires d != [] && AllDigits(d)
    requires forall k | 0 <= k < |t| :: !IsDigit(t[k]) && t[k] != '-'
    requires Trim(cells[index].text) == d + t
    ensures ParseNumber(cells, index) == Some(DigitsValue(d))
  {
    var val := Trim(cells[index].text);
    assert val[0] == d[0];
    KeepNumberCharsConcat(d, t);
    KeepNumberCharsOfSeparators(t);
    assert KeepNumberChars(val) == d;
    ParseIntDecimalOfDigits(d);
  }

  /** `colMap.name >= 0 ? colMap.name : 1` */
  function NameColumn(colMap: ColumnMap): nat {
    if colMap.name >= 0 then colMap.name else 1
  }

  /** `link?.textContent?.trim() || nameCell.textContent?.trim() || ''`, or `''` past the row's end. */
  function RowName(cells: seq<StatsCell>, colMap: ColumnMap): (r: string)
    ensures Trimmed(r)
    ensures r != [] ==> NameColumn(colMap) < |cells|
  {
    var k := NameColumn(colMap);
    if k < |cells| then TextOr(cells[k].link, Trim(cells[k].text)) else ""
  }

  /** A name the row logic accepts: at least two characters and no `(`. */
  function NameAccepted(name: string): (r: bool)
    ensures r <==> |name| >= 2 && '(' !in name
  {
    ContainsChar(name, '(');
    !(name == [] || |name| < 2 || Contains(name, "("))
  }

  /** A header repeated as a data row: its first cell mentions "name" or is `#`. */
  predicate HeaderLike(cells: seq<StatsCell>) {
    var first := CellValue(cells, 0);
    first.Some? && first.value != [] && (Contains(Lower(first.value), "name") || first.value == "#")
  }

  /** The `rows.map` callback: `null` for a rejected row, otherwise the player's statistics. */
  function StatsRow(colMap: ColumnMap, cells: seq<StatsCell>): (r: Option<PlayerStats>)
    ensures r.None? <==> |cells| < 5 || !NameAccepted(RowName(cells, colMap)) || HeaderLike(cells)
    ensures r.Some? ==> r.value.playerName == RowName(cells, colMap)
    ensures r.Some? ==> r.value.matchesPlayed == ParseNumber(cells, colMap.matchesPlayed)
    ensures r.Some? ==> r.value.matchesWon == ParseNumber(cells, colMap.matchesWon)
    ensures r.Some? ==> r.value.legsPlayed == ParseNumber(cells, colMap.legsPlayed)
    ensures r.Some? ==> r.value.legsWon == ParseNumber(cells, colMap.legsWon)
    ensures r.Some? ==> r.value.scores100Plus == ParseNumber(cells, colMap.scores100)
    ensures r.Some? ==> r.value.scores140Plus == ParseNumber(cells, colMap.scores140)
    ensures r.Some? ==> r.value.scores180 == ParseNumber(cells, colMap.scores180)
    ensures r.Some? ==> r.value.highFinish == ParseNumber(cells, colMap.highFinish)
    ensures r.Some? ==> r.value.bestLeg == ParseNumber(cells, colMap.bestLeg)
    ensures r.Some? ==> r.value.worstLeg == ParseNumber(cells, colMap.worstLeg)
    ensures r.Some? ==> r.value.totalScore == ParseNumber(cells, colMap.totalScore)
    ensures r.Some? ==> r.value.totalDarts == ParseNumber(cells, colMap.totalDarts)
  {
    if |cells| < 5 then None
    else
      var name := RowName(cells, colMap);
      if !NameAccepted(name) then None
      else if HeaderLike(cells) then None
      else Some(PlayerStats(
        name,
        ParseNumber(cells, colMap.matchesPlayed), ParseNumber(cells, colMap.matchesWon),
        ParseNumber(cells, colMap.legsPlayed), ParseNumber(cells, colMap.legsWon),
        ParseNumber(cells, colMap.scores100), ParseNumber(cells, colMap.scores140),
        ParseNumber(cells, colMap.scores180),
        ParseNumber(cells, colMap.highFinish), ParseNumber(cells, colMap.bestLeg),
        ParseNumber(cells, colMap.worstLeg),
        ParseNumber(cells, colMap.totalScore), ParseNumber(cells, colMap.totalDarts)))
  }

  /** A name that contains `(` is never accepted, whatever else the row holds. */
  lemma ParenthesisedNameRejected(colMap: ColumnMap, cells: seq<StatsCell>)
    requires Contains(RowName(cells, colMap), "(")
    ensures StatsRow(colMap, cells).None?
  {
  }

  function RowReader(colMap: ColumnMap): seq<StatsCell> -> Option<PlayerStats> {
    (cells: seq<StatsCell>) => StatsRow(colMap, cells)
  }

  /** `parseStatsRows`: the accepted rows in table order. */
  function StatsRows(colMap: ColumnMap, rows: seq<seq<StatsCell>>): (r: seq<PlayerStats>)
    ensures |r| <= |rows|
    ensures forall i | 0 <= i < |rows| && StatsRow(colMap, rows[i]).Some? :: StatsRow(colMap, rows[i]).value in r
  {
    FilterMapKeepsAll(RowReader(colMap), rows);
    FilterMap(RowReader(colMap), rows)
  }

  /**
   * Every parsed row carries an accepted name, so the trailing
   * `.filter(s => s !== null && s.playerName && s.playerName.length >= 2)`
   * drops only the rejected rows.
   */
  lemma StatsRowsNamed(colMap: ColumnMap, rows: seq<seq<StatsCell>>)
    ensures forall s | s in StatsRows(colMap, rows) :: |s.playerName| >= 2 && !Contains(s.playerName, "(")
  {
    forall s | s in StatsRows(colMap, rows)
      ensures |s.playerName| >= 2 && !Contains(s.playerName, "(")
    {
      FilterMapSound(RowReader(colMap), rows, s);
    }
  }

  /** Every row with fewer than five cells is dropped. */
  lemma ShortRowsDropped(colMap: ColumnMap, rows: seq<seq<StatsCell>>)
    requires forall i | 0 <= i < |rows| :: |rows[i]| < 5
    ensures StatsRows(colMap, rows) == []
  {
    if StatsRows(colMap, rows) != [] {
      FilterMapSound(RowReader(colMap), rows, StatsRows(colMap, rows)[0]);
    }
  }

  // ---------------------------------------------------------------------
  // Dropping repeated players
  // ---------------------------------------------------------------------

  function PlayerName(s: PlayerStats): string {
    s.playerName
  }

  /** The loop with `seenNames`: keep each player's first row. */
  method DedupByName(stats: seq<PlayerStats>) returns (uniqueStats: seq<PlayerStats>)
    ensures uniqueStats == KeepFirst(stats, PlayerName)
    ensures forall a, b | 0 <= a < b < |uniqueStats| :: uniqueStats[a].playerName != uniqueStats[b].playerName
  {
    uniqueStats := [];
    var seenNames: set<string> := {};
    for i := 0 to |stats|
      invariant seenNames == KeysOf(stats[..i], PlayerName)
      invariant uniqueStats == KeepFirst(stats[..i], PlayerName)
    {
      var stat := stats[i];
      assert stats[..i + 1] == stats[..i] + [stat];
      KeysOfSnoc(stats[..i], stat, PlayerName);
      if stat.playerName !in seenNames {
        seenNames := seenNames + {stat.playerName};
        uniqueStats := uniqueStats + [stat];
      }
    }
    assert stats[..|stats|] == stats;
    KeepFirstDistinct(stats, PlayerName);
  }

  /** Dropping repeated players keeps only rows that passed the name check. */
  lemma DedupKeepsNames(colMap: ColumnMap, rows: seq<seq<StatsCell>>)
    ensures forall s | s in KeepFirst(StatsRows(colMap, rows), PlayerName) :: |s.playerName| >= 2
  {
    var stats := StatsRows(colMap, rows);
    StatsRowsNamed(colMap, rows);
    var origin := KeepFirstOrigins(stats, PlayerName);
    forall s | s in KeepFirst(stats, PlayerName)
      ensures |s.playerName| >= 2
    {
      var k :| 0 <= k < |KeepFirst(stats, PlayerName)| && KeepFirst(stats, PlayerName)[k] == s;
      assert stats[origin[k]] == s;
    }
  }

  // ---------------------------------------------------------------------
  // scrapeTournamentStats, after the page is loaded
  // ---------------------------------------------------------------------

  /** The statistics table as the page shows it. */
  datatype StatsTable = StatsTable(captions: seq<string>, rows: seq<seq<StatsCell>>)

  /** The first data row's cell texts, as `tableStructure.sampleRow` reads them. */
  function SampleRow(t: StatsTable): seq<string> {
    if t.rows == [] then [] else seq(|t.rows[0]|, i requires 0 <= i < |t.rows[0]| => SampleText(t.rows[0][i].text))
  }

  /**
   * `scrapeTournamentStats(url)` given the table the page search found
   * (`None` when no table was usable): an error when the link carries no
   * id, no statistics without a table, otherwise the accepted rows with
   * each player's first row only.
   */
  method ScrapeTournamentStats(tournamentUrl: string, table: Option<StatsTable>)
    returns (r: Result<seq<PlayerStats>, string>)
    ensures r.Failure? <==> ExtractTournamentId(tournamentUrl).None?
    ensures r.Success? && table.None? ==> r.value == []
    ensures r.Success? && table.Some? ==>
      var mapped := ColumnMapOf(HeaderKeys(table.value.captions));
      var name := FallbackColumn(mapped.name, SampleRow(table.value));
      r.value == KeepFirst(StatsRows(mapped.(name := name), table.value.rows), PlayerName)
    ensures r.Success? ==> forall a, b | 0 <= a < b < |r.value| :: r.value[a].playerName != r.value[b].playerName
    ensures r.Success? ==> forall s | s in r.value :: |s.playerName| >= 2
  {
    var statsUrl := GetStatsUrl(tournamentUrl);
    if statsUrl.Failure? {
      return Failure(statsUrl.error);
    }
    if table.None? {
      return Success([]);
    }
    var t := table.value;
    var headers := HeaderKeys(t.captions);
    var colMap := BuildColumnMap(headers);
    var sample := SampleRow(t);
    var name := NameColumnFallback(colMap.name, sample);
    colMap := colMap.(name := name);
    var stats := StatsRows(colMap, t.rows);
    var uniqueStats := DedupByName(stats);
    DedupKeepsNames(colMap, t.rows);
    return Success(uniqueStats);
  }
}
