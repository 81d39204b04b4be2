/**
 * Normalisation of bracket matches: name cleaning, score and station parsing,
 * the order-independent match identifier and the status classifier, and the
 * pass that turns raw match elements into store rows.
 */
module Parser {
  import opened Wrappers
  import opened Text
  import opened Model
  import opened Seqs

  // ---------------------------------------------------------------------------
  // Match identifier
  // ---------------------------------------------------------------------------

  /** One side of the identifier: trimmed, lower-cased, whitespace runs made `_`. */
  function IdToken(name: string): (t: string)
    ensures NoSpace(t)
  {
    ReplaceSpaceRunsHasNoSpace(Lower(Trim(name)), '_');
    ReplaceSpaceRuns(Lower(Trim(name)), '_')
  }

  /** `generateMatchId(player1, player2)` */
  function GenerateMatchId(player1: string, player2: string): (r: string)
    ensures r == IdToken(player1) + "_vs_" + IdToken(player2) || r == IdToken(player2) + "_vs_" + IdToken(player1)
  {
    SortedPairId(IdToken(player1), IdToken(player2))
  }

  /** The same pairing gets the same identifier whichever side each player is on. */
  lemma GenerateMatchIdSymmetric(player1: string, player2: string)
    ensures GenerateMatchId(player1, player2) == GenerateMatchId(player2, player1)
  {
    SortedPairIdSymmetric(IdToken(player1), IdToken(player2));
  }

  /** The identifier is the two tokens, the smaller first, around `_vs_`; neither holds whitespace. */
  lemma GenerateMatchIdShape(player1: string, player2: string)
    ensures var t1, t2 := IdToken(player1), IdToken(player2);
      exists s0, s1 ::
        && GenerateMatchId(player1, player2) == s0 + "_vs_" + s1
        && LexLe(s0, s1) && NoSpace(s0) && NoSpace(s1)
        && ((s0 == t1 && s1 == t2) || (s0 == t2 && s1 == t1))
  {
    var t1, t2 := IdToken(player1), IdToken(player2);
    if LexLe(t1, t2) {
      assert GenerateMatchId(player1, player2) == t1 + "_vs_" + t2;
    } else {
      assert GenerateMatchId(player1, player2) == t2 + "_vs_" + t1;
    }
  }

  // ---------------------------------------------------------------------------
  // Status classifier
  // ---------------------------------------------------------------------------

  /** `\b` at position `i` of `s`. */
  predicate WordBoundary(s: string, i: nat)
    requires i <= |s|
  {
    (i > 0 && IsWordChar(s[i - 1])) != (i < |s| && IsWordChar(s[i]))
  }

  /** One alternative of `\b(wo|w\/o|walkover)\b` (flag `i`) matches at `i`. */
  predicate AlternativeAt(s: string, i: nat, word: string) {
    && AsciiCaseInsensitiveAt(s, i, word)
    && WordBoundary(s, i)
    && WordBoundary(s, i + |word|)
  }

  predicate WalkoverMarkerAt(s: string, i: nat) {
    AlternativeAt(s, i, "wo") || AlternativeAt(s, i, "w/o") || AlternativeAt(s, i, "walkover")
  }

  /** `/\b(wo|w\/o|walkover)\b/i.test(s)` */
  predicate HasWalkoverMarker(s: string) {
    exists i: nat | i <= |s| :: WalkoverMarkerAt(s, i)
  }

  /** Either side is missing or marked as a walkover. */
  predicate IsWalkoverPair(player1: string, player2: string) {
    HasWalkoverMarker(player1) || HasWalkoverMarker(player2) || player1 == [] || player2 == []
  }

  /** What `determineMatchStatus` looks at. */
  datatype MatchSignals = MatchSignals(
    player1Name: string,
    player2Name: string,
    player1Score: int,
    player2Score: int,
    stationNumber: Option<int>,
    hasScores: bool)

  /** `station_number && station_number > 0` */
  predicate HasStation(station: Option<int>) {
    station.Some? && station.value > 0
  }

  /** `!station_number`: no station, or station 0. */
  predicate NoStation(station: Option<int>) {
    station.None? || station.value == 0
  }

  /** `determineMatchStatus`: the precedence walkover, active, finished, pending. */
  function DetermineMatchStatus(m: MatchSignals): (r: Status)
    ensures r == Walkover <==> IsWalkoverPair(m.player1Name, m.player2Name)
    ensures r == Active <==>
      !IsWalkoverPair(m.player1Name, m.player2Name) && HasStation(m.stationNumber)
    ensures r == Finished <==>
      && !IsWalkoverPair(m.player1Name, m.player2Name)
      && m.hasScores && (m.player1Score > 0 || m.player2Score > 0)
      && NoStation(m.stationNumber)
  {
    if IsWalkoverPair(m.player1Name, m.player2Name) then Walkover
    else if HasStation(m.stationNumber) then Active
    else if m.hasScores && (m.player1Score > 0 || m.player2Score > 0) && NoStation(m.stationNumber) then Finished
    else Pending
  }

  /** A walkover stays a walkover whatever the scores and the station are. */
  lemma WalkoverIgnoresScoresAndStation(m: MatchSignals, s1: int, s2: int, station: Option<int>, hasScores: bool)
    requires DetermineMatchStatus(m) == Walkover
    ensures DetermineMatchStatus(m.(player1Score := s1, player2Score := s2,
                                     stationNumber := station, hasScores := hasScores)) == Walkover
  {
  }

  // ---------------------------------------------------------------------------
  // Player names
  // ---------------------------------------------------------------------------

  /** The length of a `(digits)` ranking annotation at the start of `s`, or 0. */
  function RankingLength(s: string): (n: nat)
    ensures n <= |s|
    ensures n > 0 ==> n >= 3 && s[0] == '(' && s[n - 1] == ')' && AllDigits(s[1..n - 1])
  {
    if |s| >= 3 && s[0] == '(' then
      var j := DigitRunEnd(s, 1);
      if j > 1 && j < |s| && s[j] == ')' then j + 1 else 0
    else 0
  }

  /** `s.replace(/\(\d+\)/g, '')` */
  function StripRankings(s: string): (r: string)
    ensures |r| <= |s|
    decreases |s|
  {
    if s == [] then []
    else
      var n := RankingLength(s);
      if n > 0 then StripRankings(s[n..]) else [s[0]] + StripRankings(s[1..])
  }

  /** Stripping only removes characters: each one is kept at most as often as it occurs. */
  lemma {:induction false} StripRankingsOnlyRemoves(s: string)
    ensures multiset(StripRankings(s)) <= multiset(s)
    decreases |s|
  {
    if s != [] {
      var n := RankingLength(s);
      if n > 0 {
        StripRankingsOnlyRemoves(s[n..]);
        assert s == s[..n] + s[n..];
      } else {
        StripRankingsOnlyRemoves(s[1..]);
        assert s == [s[0]] + s[1..];
      }
    }
  }

  /**
   * `cleanPlayerName`: trimmed, ranking annotations removed, whitespace runs
   * made single spaces, trimmed again.
   */
  function CleanPlayerName(name: string): (r: string)
    ensures name == [] ==> r == []
    ensures r == [] || (!IsSpace(r[0]) && !IsSpace(r[|r| - 1]))
    ensures NoDoubleSpace(r)
  {
    if name == [] then []
    else
      var stripped := StripRankings(Trim(name));
      ReplaceSpaceRunsNoDoubleSpace(stripped, ' ');
      TrimKeepsNoDoubleSpace(ReplaceSpaceRuns(stripped, ' '));
      Trim(ReplaceSpaceRuns(stripped, ' '))
  }

  /** Text without `(` holds no ranking annotation and passes through unchanged. */
  lemma {:induction false} StripRankingsWithoutParen(s: string)
    requires '(' !in s
    ensures StripRankings(s) == s
    decreases |s|
  {
    if s != [] {
      assert RankingLength(s) == 0;
      assert '(' !in s[1..];
      StripRankingsWithoutParen(s[1..]);
    }
  }

  /** A prefix without `(` is kept as it is in front of whatever the rest becomes. */
  lemma {:induction false} StripRankingsPrefix(a: string, b: string)
    requires '(' !in a
    ensures StripRankings(a + b) == a + StripRankings(b)
    decreases |a|
  {
    if a != [] {
      var s := a + b;
      assert s[0] == a[0] && RankingLength(s) == 0;
      assert s[1..] == a[1..] + b;
      assert '(' !in a[1..];
      StripRankingsPrefix(a[1..], b);
      assert StripRankings(s) == [s[0]] + StripRankings(s[1..]);
      assert [a[0]] + (a[1..] + StripRankings(b)) == a + StripRankings(b);
    } else {
      assert a + b == b;
    }
  }

  /** A whole `(digits)` annotation is removed completely. */
  lemma StripRankingsOfRanking(d: string)
    requires d != [] && AllDigits(d)
    ensures StripRankings("(" + d + ")") == []
  {
    var s := "(" + d + ")";
    forall k | 1 <= k < |d| + 1
      ensures IsDigit(s[k])
    {
      assert s[k] == d[k - 1];
    }
    assert s[|d| + 1] == ')';
    var j := DigitRunEnd(s, 1);
    assert j == |d| + 1;
    assert RankingLength(s) == |s|;
  }

  /** A name without `(` only has its whitespace normalised. */
  lemma CleanWithoutRankings(name: string)
    requires '(' !in name
    ensures CleanPlayerName(name) == Trim(ReplaceSpaceRuns(Trim(name), ' '))
  {
    if name != [] {
      TrimKeepsAbsent(name, '(');
      StripRankingsWithoutParen(Trim(name));
    }
  }

  /** One pass only: removing an inner annotation can leave a new one behind. */
  lemma StripRankingsSinglePass()
    ensures StripRankings("((12)3)") == "(3)"
  {
    assert RankingLength("((12)3)") == 0;
    assert RankingLength("(12)3)") == 4;
    assert "(12)3)"[4..] == "3)";
    assert RankingLength("3)") == 0 && RankingLength(")") == 0;
    assert StripRankings(")") == ")";
    assert StripRankings("3)") == "3)";
    assert StripRankings("(12)3)") == "3)";
    assert "((12)3)"[1..] == "(12)3)";
    assert StripRankings("((12)3)") == "(" + StripRankings("(12)3)");
  }

  /**
   * A clean name followed by a ranking annotation, `"Jan Kowalski (12)"`,
   * cleans back to the name.
   */
  lemma CleanRemovesRanking(n: string, d: string)
    requires n != [] && !IsSpace(n[0]) && !IsSpace(n[|n| - 1])
    requires '(' !in n && OnlyPlainSpaces(n) && NoDoubleSpace(n)
    requires d != [] && AllDigits(d)
    ensures CleanPlayerName(n + " (" + d + ")") == n
  {
    RankedNameStrips(n, d);
    SingleSpacedWithSpace(n);
    ReplaceSpaceRunsOfSingleSpaced(n + " ");
    TrimDropsTrailingSpace(n);
  }

  /** The trimmed and stripped form of `n (d)` is `n` and the space before the annotation. */
  lemma RankedNameStrips(n: string, d: string)
    requires n != [] && !IsSpace(n[0]) && '(' !in n
    requires d != [] && AllDigits(d)
    ensures StripRankings(Trim(n + " (" + d + ")")) == n + " "
  {
    var name := n + " (" + d + ")";
    var head := n + " ";
    assert name == head + ("(" + d + ")");
    assert name[0] == n[0] && name[|name| - 1] == ')';
    TrimOfTrimmed(name);
    assert '(' !in head;
    StripRankingsPrefix(head, "(" + d + ")");
    StripRankingsOfRanking(d);
  }

  // ---------------------------------------------------------------------------
  // Scores
  // ---------------------------------------------------------------------------

  /** A pair of scores, as `parseScore` returns it. */
  datatype Score = Score(player1: nat, player2: nat)

  predicate IsDash(c: char, enDash: bool) {
    c == '-' || (enDash && c == '–')
  }

  /**
   * `(\d+)\s*-\s*(\d+)` (with `enDash`, `(\d+)\s*[-–]\s*(\d+)`) matched at `i`:
   * the digit runs are maximal, so no backtracking can change the match.
   */
  function NumberPairAt(s: string, i: nat, enDash: bool): Option<Score>
    requires i <= |s|
  {
    var j := DigitRunEnd(s, i);
    if j == i then None
    else
      var k := SpaceRunEnd(s, j);
      if k < |s| && IsDash(s[k], enDash) then
        var m := SpaceRunEnd(s, k + 1);
        var e := DigitRunEnd(s, m);
        if e == m then None else Some(Score(DigitsValue(s[i..j]), DigitsValue(s[m..e])))
      else None
  }

  /** The leftmost match of the pair pattern at or after `i`. */
  function FirstNumberPair(s: string, i: nat, enDash: bool): Option<Score>
    requires i <= |s|
    decreases |s| - i
  {
    if i == |s| then None
    else match NumberPairAt(s, i, enDash)
      case Some(p) => Some(p)
      case None => FirstNumberPair(s, i + 1, enDash)
  }

  /** The leftmost match of `(\d+)` at or after `i`, as its value. */
  function FirstNumber(s: string, i: nat): Option<nat>
    requires i <= |s|
    decreases |s| - i
  {
    if i == |s| then None
    else if IsDigit(s[i]) then Some(DigitsValue(s[i..DigitRunEnd(s, i)]))
    else FirstNumber(s, i + 1)
  }

  /** `parseScore(scoreText)` */
  function ParseScore(scoreText: string): (r: Score)
    ensures r.player2 != 0 ==> FirstNumberPair(scoreText, 0, true) == Some(r)
  {
    if scoreText == [] then Score(0, 0)
    else match FirstNumberPair(scoreText, 0, true)
      case Some(p) => p
      case None =>
        match FirstNumber(scoreText, 0)
        case Some(n) => Score(n, 0)
        case None => Score(0, 0)
  }

  predicate AllSpaces(s: string) {
    forall i | 0 <= i < |s| :: IsSpace(s[i])
  }

  /** `"X - Y"` (any spacing, `-` or `–`) gives `(X, Y)`. */
  lemma ParseScoreOfPair(x: string, gap1: string, dash: char, gap2: string, y: string)
    requires x != [] && AllDigits(x) && y != [] && AllDigits(y)
    requires AllSpaces(gap1) && AllSpaces(gap2) && IsDash(dash, true)
    ensures ParseScore(x + gap1 + [dash] + gap2 + y) == Score(DigitsValue(x), DigitsValue(y))
  {
    var s := x + gap1 + [dash] + gap2 + y;
    var j := |x|;
    var k := j + |gap1|;
    var m := k + 1 + |gap2|;
    assert s[..j] == x && s[m..] == y;
    assert forall i | 0 <= i < j :: s[i] == x[i];
    assert forall i | j <= i < k :: s[i] == gap1[i - j];
    assert forall i | k + 1 <= i < m :: s[i] == gap2[i - k - 1];
    assert forall i | m <= i < |s| :: s[i] == y[i - m];
    assert s[k] == dash;
    NumberPairAtSpans(s, j, k, m);
  }

  /** The pair pattern read off a string whose digit, space and dash spans are known. */
  lemma NumberPairAtSpans(s: string, j: nat, k: nat, m: nat)
    requires 0 < j <= k < m < |s|
    requires forall i | 0 <= i < j :: IsDigit(s[i])
    requires forall i | j <= i < k :: IsSpace(s[i])
    requires IsDash(s[k], true)
    requires forall i | k + 1 <= i < m :: IsSpace(s[i])
    requires forall i | m <= i < |s| :: IsDigit(s[i])
    ensures ParseScore(s) == Score(DigitsValue(s[..j]), DigitsValue(s[m..]))
  {
    PairRunEnds(s, j, k, m);
    NumberPairAtRuns(s, 0, j, k, m, |s|);
    assert s[0..j] == s[..j] && s[m..|s|] == s[m..];
    ParseScoreOfLeadingPair(s, Score(DigitsValue(s[..j]), DigitsValue(s[m..])));
  }

  /** The four runs of such a text end where its spans do. */
  lemma PairRunEnds(s: string, j: nat, k: nat, m: nat)
    requires 0 < j <= k < m < |s|
    requires forall i | 0 <= i < j :: IsDigit(s[i])
    requires forall i | j <= i < k :: IsSpace(s[i])
    requires IsDash(s[k], true)
    requires forall i | k + 1 <= i < m :: IsSpace(s[i])
    requires forall i | m <= i < |s| :: IsDigit(s[i])
    ensures DigitRunEnd(s, 0) == j && SpaceRunEnd(s, j) == k
    ensures SpaceRunEnd(s, k + 1) == m && DigitRunEnd(s, m) == |s|
  {
    DigitRunUpTo(s, 0, j);
    SpaceRunUpTo(s, j, k);
    SpaceRunUpTo(s, k + 1, m);
    DigitRunUpTo(s, m, |s|);
  }

  /** A pair matched at the very start is the score. */
  lemma ParseScoreOfLeadingPair(s: string, p: Score)
    requires s != [] && NumberPairAt(s, 0, true) == Some(p)
    ensures ParseScore(s) == p
  {
    assert FirstNumberPair(s, 0, true) == Some(p);
  }

  /** The pair pattern at `i` from the ends of its four runs. */
  lemma NumberPairAtRuns(s: string, i: nat, j: nat, k: nat, m: nat, e: nat)
    requires i < j <= k < m < e <= |s|
    requires DigitRunEnd(s, i) == j && SpaceRunEnd(s, j) == k && IsDash(s[k], true)
    requires SpaceRunEnd(s, k + 1) == m && DigitRunEnd(s, m) == e
    ensures NumberPairAt(s, i, true) == Some(Score(DigitsValue(s[i..j]), DigitsValue(s[m..e])))
  {
  }

  lemma {:induction false} DigitRunUpTo(s: string, i: nat, j: nat)
    requires i <= j <= |s|
    requires forall k | i <= k < j :: IsDigit(s[k])
    requires j == |s| || !IsDigit(s[j])
    ensures DigitRunEnd(s, i) == j
    decreases j - i
  {
    if i < j {
      DigitRunUpTo(s, i + 1, j);
    }
  }

  lemma {:induction false} SpaceRunUpTo(s: string, i: nat, j: nat)
    requires i <= j <= |s|
    requires forall k | i <= k < j :: IsSpace(s[k])
    requires j == |s| || !IsSpace(s[j])
    ensures SpaceRunEnd(s, i) == j
    decreases j - i
  {
    if i < j {
      SpaceRunUpTo(s, i + 1, j);
    }
  }

  /** A lone number `n` gives `(n, 0)`. */
  lemma ParseScoreOfNumber(digits: string)
    requires digits != [] && AllDigits(digits)
    ensures ParseScore(digits) == Score(DigitsValue(digits), 0)
  {
    NoNumberPairInDigits(digits, 0);
    DigitRunOfDigits(digits, 0);
    assert digits[0..|digits|] == digits;
  }

  lemma {:induction false} NoNumberPairInDigits(digits: string, i: nat)
    requires i <= |digits| && AllDigits(digits)
    ensures FirstNumberPair(digits, i, true) == None
    decreases |digits| - i
  {
    if i < |digits| {
      DigitRunOfDigits(digits, i);
      NoNumberPairInDigits(digits, i + 1);
    }
  }

  /** Text with no digit at all gives `(0, 0)`. */
  lemma ParseScoreWithoutDigits(s: string)
    requires forall i | 0 <= i < |s| :: !IsDigit(s[i])
    ensures ParseScore(s) == Score(0, 0)
  {
    if s != [] {
      NoDigitsNoPair(s, 0);
      NoDigitsNoNumber(s, 0);
    }
  }

  lemma {:induction false} NoDigitsNoPair(s: string, i: nat)
    requires i <= |s| && forall k | 0 <= k < |s| :: !IsDigit(s[k])
    ensures FirstNumberPair(s, i, true) == None
    decreases |s| - i
  {
    if i < |s| {
      NoDigitsNoPair(s, i + 1);
    }
  }

  lemma {:induction false} NoDigitsNoNumber(s: string, i: nat)
    requires i <= |s| && forall k | 0 <= k < |s| :: !IsDigit(s[k])
    ensures FirstNumber(s, i) == None
    decreases |s| - i
  {
    if i < |s| {
      NoDigitsNoNumber(s, i + 1);
    }
  }

  // ---------------------------------------------------------------------------
  // Station numbers
  // ---------------------------------------------------------------------------

  /**
   * The patterns `parseStationNumber` tries, in order: a keyword followed by
   * `\s*#?\s*(\d+)` (flag `i`), then `#(\d+)`, then `^(\d+)$`.
   */
  datatype StationPattern = Keyword(word: string) | HashNumber | WholeNumber

  const StationPatterns: seq<StationPattern> :=
    [Keyword("board"), Keyword("tarcza"), Keyword("station"), Keyword("stanowisko"), HashNumber, WholeNumber]

  /** `keyword\s*#?\s*(\d+)` matched at `i`. */
  function KeywordNumberAt(s: string, i: nat, word: string): Option<nat> {
    if !AsciiCaseInsensitiveAt(s, i, word) then None
    else
      var j := SpaceRunEnd(s, i + |word|);
      var k := if j < |s| && s[j] == '#' then SpaceRunEnd(s, j + 1) else j;
      var e := DigitRunEnd(s, k);
      if e == k then None else Some(DigitsValue(s[k..e]))
  }

  /** `#(\d+)` matched at `i`. */
  function HashNumberAt(s: string, i: nat): Option<nat>
    requires i <= |s|
  {
    if i < |s| && s[i] == '#' then
      var e := DigitRunEnd(s, i + 1);
      if e == i + 1 then None else Some(DigitsValue(s[i + 1..e]))
    else None
  }

  function PatternAt(s: string, i: nat, p: StationPattern): Option<nat>
    requires i <= |s|
  {
    match p
    case Keyword(w) => KeywordNumberAt(s, i, w)
    case HashNumber => HashNumberAt(s, i)
    case WholeNumber => if i == 0 && s != [] && AllDigits(s) then Some(DigitsValue(s)) else None
  }

  /** The leftmost match of pattern `p` in `s` at or after `i`. */
  function PatternFrom(s: string, i: nat, p: StationPattern): Option<nat>
    requires i <= |s|
    decreases |s| - i
  {
    match PatternAt(s, i, p)
    case Some(n) => Some(n)
    case None => if i == |s| then None else PatternFrom(s, i + 1, p)
  }

  /** `text.match(pattern)` followed by `parseInt(match[1], 10)`. */
  function MatchPattern(text: string, p: StationPattern): Option<nat> {
    PatternFrom(text, 0, p)
  }

  /** The value of the first pattern of `ps` that matches `text`. */
  function FirstPatternMatch(text: string, ps: seq<StationPattern>): (r: Option<nat>)
    ensures r.None? <==> forall k | 0 <= k < |ps| :: MatchPattern(text, ps[k]).None?
    ensures r.Some? ==> exists k | 0 <= k < |ps| ::
      && r == MatchPattern(text, ps[k])
      && forall j | 0 <= j < k :: MatchPattern(text, ps[j]).None?
  {
    if ps == [] then None
    else match MatchPattern(text, ps[0])
      case Some(n) => Some(n)
      case None =>
        var r := FirstPatternMatch(text, ps[1..]);
        assert forall k | 1 <= k < |ps| :: ps[k] == ps[1..][k - 1];
        r
  }

  /** The value `parseStationNumber(text)` returns. */
  function StationNumber(text: string): (r: Option<nat>)
    ensures text == [] ==> r == None
    ensures text != [] && r.None? ==> forall k | 0 <= k < |StationPatterns| :: MatchPattern(text, StationPatterns[k]).None?
    ensures r.Some? ==> exists k | 0 <= k < |StationPatterns| ::
      && r == MatchPattern(text, StationPatterns[k])
      && forall j | 0 <= j < k :: MatchPattern(text, StationPatterns[j]).None?
  {
    if text == [] then None else FirstPatternMatch(text, StationPatterns)
  }

  /** `parseStationNumber`: the patterns are tried in order and the first match wins. */
  method ParseStationNumber(text: string) returns (r: Option<nat>)
    ensures r == StationNumber(text)
    ensures text == [] ==> r == None
    ensures r.Some? ==> exists k | 0 <= k < |StationPatterns| ::
      && r == MatchPattern(text, StationPatterns[k])
      && forall j | 0 <= j < k :: MatchPattern(text, StationPatterns[j]).None?
    ensures text != [] && r.None? ==> forall k | 0 <= k < |StationPatterns| ::
      MatchPattern(text, StationPatterns[k]).None?
  {
    if text == [] {
      return None;
    }
    var i := 0;
    while i < |StationPatterns|
      invariant 0 <= i <= |StationPatterns|
      invariant forall j | 0 <= j < i :: MatchPattern(text, StationPatterns[j]).None?
    {
      var m := MatchPattern(text, StationPatterns[i]);
      if m.Some? {
        FirstHitIsStation(text, i);
        return m;
      }
      i := i + 1;
    }
    assert StationNumber(text) == FirstPatternMatch(text, StationPatterns);
    return None;
  }

  /** The first pattern that matches decides the station. */
  lemma FirstHitIsStation(text: string, i: nat)
    requires text != [] && i < |StationPatterns|
    requires MatchPattern(text, StationPatterns[i]).Some?
    requires forall j | 0 <= j < i :: MatchPattern(text, StationPatterns[j]).None?
    ensures StationNumber(text) == MatchPattern(text, StationPatterns[i])
  {
    var r := StationNumber(text);
    assert r == FirstPatternMatch(text, StationPatterns);
    assert r.Some?;
    var k :| 0 <= k < |StationPatterns| && r == MatchPattern(text, StationPatterns[k])
      && forall j | 0 <= j < k :: MatchPattern(text, StationPatterns[j]).None?;
    assert !(k < i);
    assert !(i < k);
  }

  // ---------------------------------------------------------------------------
  // Match elements
  // ---------------------------------------------------------------------------

  /** What `parseMatchElement` reads from one match element of the page. */
  datatype RawMatchElement = RawMatchElement(
    players: seq<string>,
    scores: seq<string>,
    boardText: string,
    referee: string,
    rawHtml: string)

  /** `parts.join(sep)` */
  function Join(parts: seq<string>, sep: string): string {
    if parts == [] then []
    else if |parts| == 1 then parts[0]
    else Join(parts[..|parts| - 1], sep) + sep + parts[|parts| - 1]
  }

  /** `processMatchData(rawData)`; `None` is its `null`. */
  function ProcessMatchData(raw: RawMatchElement): (r: Option<ScrapedMatch>)
    ensures r.None? <==>
      |raw.players| < 2
      || (CleanPlayerName(raw.players[0]) == [] && CleanPlayerName(raw.players[1]) == [])
    ensures r.Some? ==>
      var p1, p2 := CleanPlayerName(raw.players[0]), CleanPlayerName(raw.players[1]);
      && r.value.n01MatchId == GenerateMatchId(p1, p2)
      && r.value.player1Name == (if p1 == [] then "TBD" else p1)
      && r.value.player2Name == (if p2 == [] then "TBD" else p2)
      && (p1 == [] || p2 == [] ==> r.value.status == Walkover)
      && r.value.player1Score >= 0 && r.value.player2Score >= 0
      && (r.value.status == Active ==> r.value.stationNumber.Some?)
  {
    if |raw.players| < 2 then None
    else
      var p1 := CleanPlayerName(raw.players[0]);
      var p2 := CleanPlayerName(raw.players[1]);
      if p1 == [] && p2 == [] then None
      else
        var score := if |raw.scores| > 0 then ParseScore(Join(raw.scores, " ")) else Score(0, 0);
        var hasScores := score.player1 > 0 || score.player2 > 0;
        var station := StationNumber(raw.boardText);
        var status := DetermineMatchStatus(MatchSignals(p1, p2, score.player1, score.player2, station, hasScores));
        Some(ScrapedMatch(
          GenerateMatchId(p1, p2),
          if p1 == [] then "TBD" else p1,
          if p2 == [] then "TBD" else p2,
          score.player1,
          score.player2,
          station,
          if raw.referee == [] then None else Some(raw.referee),
          status,
          Some(Take(raw.rawHtml, 5000))))
  }

  /**
   * The fields of a processed match: the scores parsed from the joined score
   * cells (0:0 when there are none), the station read from the board text,
   * the status decided from those, the referee when one is written and the
   * raw HTML cut to its first 5000 characters.
   */
  lemma ProcessedMatchFields(raw: RawMatchElement, m: ScrapedMatch)
    requires ProcessMatchData(raw) == Some(m)
    ensures |raw.players| >= 2
    ensures
      var p1, p2 := CleanPlayerName(raw.players[0]), CleanPlayerName(raw.players[1]);
      var score := if |raw.scores| > 0 then ParseScore(Join(raw.scores, " ")) else Score(0, 0);
      && m.player1Score == score.player1 && m.player2Score == score.player2
      && m.stationNumber == StationNumber(raw.boardText)
      && m.status == DetermineMatchStatus(MatchSignals(p1, p2, m.player1Score, m.player2Score,
           m.stationNumber, m.player1Score > 0 || m.player2Score > 0))
      && (m.referee.Some? <==> raw.referee != [])
      && m.rawHtml == Some(Take(raw.rawHtml, 5000))
  {
    ProcessedMatchReadings(raw, m);
    ProcessedMatchStatus(raw, m);
    ProcessedMatchReferee(raw, m);
    ProcessedMatchHtml(raw, m);
  }

  /** The scores and the station of a processed match. */
  lemma ProcessedMatchReadings(raw: RawMatchElement, m: ScrapedMatch)
    requires ProcessMatchData(raw) == Some(m)
    ensures
      var score := if |raw.scores| > 0 then ParseScore(Join(raw.scores, " ")) else Score(0, 0);
      && m.player1Score == score.player1 && m.player2Score == score.player2
      && m.stationNumber == StationNumber(raw.boardText)
  {
  }

  /** The status of a processed match, decided from its own fields. */
  lemma ProcessedMatchStatus(raw: RawMatchElement, m: ScrapedMatch)
    requires ProcessMatchData(raw) == Some(m)
    ensures |raw.players| >= 2
    ensures
      var p1, p2 := CleanPlayerName(raw.players[0]), CleanPlayerName(raw.players[1]);
      m.status == DetermineMatchStatus(MatchSignals(p1, p2, m.player1Score, m.player2Score,
        m.stationNumber, m.player1Score > 0 || m.player2Score > 0))
  {
  }

  /** The referee of a processed match, kept when one is written. */
  lemma ProcessedMatchReferee(raw: RawMatchElement, m: ScrapedMatch)
    requires ProcessMatchData(raw) == Some(m)
    ensures m.referee.Some? <==> raw.referee != []
  {
  }

  /** The stored HTML of a processed match. */
  lemma ProcessedMatchHtml(raw: RawMatchElement, m: ScrapedMatch)
    requires ProcessMatchData(raw) == Some(m)
    ensures m.rawHtml == Some(Take(raw.rawHtml, 5000))
  {
  }

  /** `parseAllMatches`; `None` stands for a missing or non-array argument. */
  method ParseAllMatches(rawMatches: Option<seq<RawMatchElement>>) returns (matches: seq<ScrapedMatch>)
    ensures rawMatches.None? ==> matches == []
    ensures rawMatches.Some? ==> matches == FilterMap(ProcessMatchData, rawMatches.value)
  {
    if rawMatches.None? {
      return [];
    }
    matches := CollectMatches(rawMatches.value, ProcessMatchData);
  }

  /**
   * The `for ... of` loop of `parseAllMatches`: each element goes through
   * `process` (`ProcessMatchData` there) and the results that are not
   * `null` are pushed in order.
   */
  method CollectMatches(raws: seq<RawMatchElement>, process: RawMatchElement -> Option<ScrapedMatch>)
    returns (matches: seq<ScrapedMatch>)
    ensures matches == FilterMap(process, raws)
  {
    matches := [];
    ghost var processedSoFar: seq<Option<ScrapedMatch>> := [];
    var i := 0;
    while i < |raws|
      invariant 0 <= i <= |raws| && |processedSoFar| == i
      invariant forall k | 0 <= k < i :: processedSoFar[k] == process(raws[k])
      invariant matches == Present(processedSoFar)
    {
      var processed := process(raws[i]);
      processedSoFar := processedSoFar + [processed];
      assert processedSoFar[..i] == processedSoFar[..|processedSoFar| - 1];
      if processed.Some? {
        matches := matches + [processed.value];
      }
      i := i + 1;
    }
    FilterMapPresent(process, raws, processedSoFar);
  }
}
