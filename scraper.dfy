/**
 * The live scrape of one tournament page, with the page replaced by the raw
 * values the scraper reads from it: the bracket pass with its legs-limit
 * status rule, the round-robin matrix walk of each group table, and the
 * referee pass for steel tournaments.
 */
module Scraper {
  import opened Wrappers
  import opened Text
  import opened Model
  import opened Seqs
  import Parser

  // ---------------------------------------------------------------------------
  // Bracket matches
  // ---------------------------------------------------------------------------

  /**
   * What the page holds for one `.t_item_container`: element texts and the
   * `legs` attribute, `None` where the element or attribute is missing.
   */
  datatype RawBracketEntry = RawBracketEntry(
    player1Text: Option<string>,
    player1ScoreText: Option<string>,
    player2Text: Option<string>,
    player2ScoreText: Option<string>,
    badgeText: Option<string>,
    memoText: Option<string>,
    legsAttribute: Option<string>)

  /** The record the page script returns for one container. */
  datatype BracketEntry = BracketEntry(
    player1Name: string,
    player2Name: string,
    player1Score: int,
    player2Score: int,
    boardText: string,
    referee: string,
    hasBoard: bool,
    isFinished: bool)

  /** `parseInt(leftItem?.getAttribute('legs') || '0')`; `None` is `NaN`. */
  function LegsLimit(legsAttribute: Option<string>): Option<int> {
    ParseInt(AttrOr(legsAttribute, "0"))
  }

  /** `s >= parseInt(legsLimit)`: every comparison with `NaN` is false. */
  predicate ReachesLimit(score: int, limit: Option<int>) {
    limit.Some? && score >= limit.value
  }

  /** The page script for one container: trimmed texts, scores, board and finish flags. */
  function ReadBracketEntry(raw: RawBracketEntry): (e: BracketEntry)
    ensures e.hasBoard <==> e.boardText != []
    ensures e.isFinished <==>
      ReachesLimit(e.player1Score, LegsLimit(raw.legsAttribute))
      || ReachesLimit(e.player2Score, LegsLimit(raw.legsAttribute))
    ensures Trimmed(e.player1Name) && Trimmed(e.player2Name)
  {
    var s1 := OrZero(ParseInt(TextOr(raw.player1ScoreText, "0")));
    var s2 := OrZero(ParseInt(TextOr(raw.player2ScoreText, "0")));
    var limit := LegsLimit(raw.legsAttribute);
    var boardText := TextOr(raw.badgeText, "");
    BracketEntry(
      TextOr(raw.player1Text, ""),
      TextOr(raw.player2Text, ""),
      s1,
      s2,
      boardText,
      TextOr(raw.memoText, ""),
      boardText != [],
      ReachesLimit(s1, limit) || ReachesLimit(s2, limit))
  }

  /** Without a `legs` attribute the limit is 0, so any entry with a score of 0 or more counts as finished. */
  lemma MissingLegsMeansFinished(raw: RawBracketEntry)
    requires raw.legsAttribute.None? || raw.legsAttribute == Some("")
    requires ReadBracketEntry(raw).player1Score >= 0 || ReadBracketEntry(raw).player2Score >= 0
    ensures ReadBracketEntry(raw).isFinished
  {
    ParseIntOfZero();
    assert LegsLimit(raw.legsAttribute) == Some(0);
  }

  /** A `legs` attribute that is not a number never lets an entry finish. */
  lemma UnreadableLegsNeverFinish(raw: RawBracketEntry)
    requires LegsLimit(raw.legsAttribute).None?
    ensures !ReadBracketEntry(raw).isFinished
  {
  }

  /** The bracket status rule: board and not finished is active; finished wins otherwise. */
  function BracketStatus(e: BracketEntry): (r: Status)
    ensures r != Walkover
    ensures r == Active <==> e.hasBoard && !e.isFinished
    ensures r == Finished <==> e.isFinished
    ensures r == Pending <==> !e.hasBoard && !e.isFinished
  {
    if e.hasBoard && !e.isFinished then Active
    else if e.isFinished then Finished
    else Pending
  }

  /** `name.toLowerCase().replace(/\s+/g, '_')`: the names are not trimmed again here. */
  function BracketToken(name: string): (t: string)
    ensures NoSpace(t)
  {
    ReplaceSpaceRunsHasNoSpace(Lower(name), '_');
    ReplaceSpaceRuns(Lower(name), '_')
  }

  /** `[p1, p2].sort().join('_vs_')` over the two tokens. */
  function BracketMatchId(player1Name: string, player2Name: string): string {
    SortedPairId(BracketToken(player1Name), BracketToken(player2Name))
  }

  /** The bracket identifier does not depend on which side each player is on. */
  lemma BracketMatchIdSymmetric(player1Name: string, player2Name: string)
    ensures BracketMatchId(player1Name, player2Name) == BracketMatchId(player2Name, player1Name)
  {
    SortedPairIdSymmetric(BracketToken(player1Name), BracketToken(player2Name));
  }

  /** `boardText ? parseInt(boardText) || null : null` */
  function BoardStation(boardText: string): (r: Option<int>)
    ensures boardText == [] ==> r.None?
    ensures r.Some? ==> r.value != 0 && ParseInt(boardText) == r
    ensures boardText != [] && r.None? ==> ParseInt(boardText).None? || ParseInt(boardText) == Some(0)
  {
    if boardText == [] then None
    else match ParseInt(boardText)
      case None => None
      case Some(v) => if v == 0 then None else Some(v)
  }

  /** The store row built from one entry. */
  function BracketMatch(e: BracketEntry): ScrapedMatch {
    ScrapedMatch(
      BracketMatchId(e.player1Name, e.player2Name),
      e.player1Name,
      e.player2Name,
      e.player1Score,
      e.player2Score,
      BoardStation(e.boardText),
      if e.referee == [] then None else Some(e.referee),
      BracketStatus(e),
      None)
  }

  /** The filter on both names followed by the mapping to a store row. */
  function BracketRow(raw: RawBracketEntry): (r: Option<ScrapedMatch>)
    ensures r.None? <==> ReadBracketEntry(raw).player1Name == [] || ReadBracketEntry(raw).player2Name == []
  {
    var e := ReadBracketEntry(raw);
    if e.player1Name == [] || e.player2Name == [] then None else Some(BracketMatch(e))
  }

  /** The bracket matches of a page, in page order. */
  function BracketMatches(raws: seq<RawBracketEntry>): (r: seq<ScrapedMatch>)
    ensures |r| <= |raws|
    ensures forall i | 0 <= i < |raws| && BracketRow(raws[i]).Some? :: BracketRow(raws[i]).value in r
  {
    FilterMapKeepsAll(BracketRow, raws);
    FilterMap(BracketRow, raws)
  }

  /**
   * Every bracket match comes from an entry with both names, carries that
   * entry's names and scores, and is never a walkover.
   */
  lemma BracketMatchesFromCompleteEntries(raws: seq<RawBracketEntry>, m: ScrapedMatch)
    requires m in BracketMatches(raws)
    ensures exists i | 0 <= i < |raws| ::
      var e := ReadBracketEntry(raws[i]);
      && e.player1Name != [] && e.player2Name != []
      && m.player1Name == e.player1Name && m.player2Name == e.player2Name
      && m.player1Score == e.player1Score && m.player2Score == e.player2Score
      && m.n01MatchId == BracketMatchId(e.player1Name, e.player2Name)
    ensures m.status != Walkover
  {
    FilterMapSound(BracketRow, raws, m);
    var i :| 0 <= i < |raws| && BracketRow(raws[i]) == Some(m);
    assert m == BracketMatch(ReadBracketEntry(raws[i]));
  }

  /** Every entry with both names reaches the bracket matches. */
  lemma CompleteEntriesKept(raws: seq<RawBracketEntry>, i: nat)
    requires i < |raws|
    requires ReadBracketEntry(raws[i]).player1Name != [] && ReadBracketEntry(raws[i]).player2Name != []
    ensures BracketMatch(ReadBracketEntry(raws[i])) in BracketMatches(raws)
  {
    FilterMapComplete(BracketRow, raws, i);
  }

  // ---------------------------------------------------------------------------
  // Group tables
  // ---------------------------------------------------------------------------

  /** One `.rr_result` cell of the result matrix. */
  datatype RawCell = RawCell(
    isNone: bool,            // class `rr_none` (the diagonal)
    fixGame: bool,           // class `fix_game` (a completed match)
    activeBackground: bool,  // the computed background colour marks a match in play
    text: string,            // the cell's text
    idxText: Option<string>) // the text of its `.rr_idx` element, if any

  /** One `.rr_player` row: texts of its named elements (`None` when missing) and its result cells. */
  datatype RawPlayerRow = RawPlayerRow(
    nameText: Option<string>,
    tpid: Option<string>,
    rankText: Option<string>,
    winText: Option<string>,
    legText: Option<string>,
    cells: seq<RawCell>)

  /** One `.rr_table_container`. */
  datatype RawGroup = RawGroup(
    hasTable: bool,
    subtitle: Option<string>,
    memoText: Option<string>,
    rows: seq<RawPlayerRow>)

  datatype GroupPlayer = GroupPlayer(
    id: Option<string>,
    name: string,
    position: nat,
    wins: nat,
    losses: nat,
    legsWon: nat,
    legsLost: nat,
    rank: int)

  datatype GroupMatch = GroupMatch(
    player1Name: string,
    player2Name: string,
    player1Id: Option<string>,
    player2Id: Option<string>,
    player1Score: nat,
    player2Score: nat,
    matchOrder: Option<int>,
    status: Status,
    player1Position: nat,
    player2Position: nat,
    referee: Option<string>,
    refereePosition: Option<int>)

  datatype Group = Group(
    groupNumber: nat,
    groupName: string,
    stationNumber: Option<nat>,
    memoText: string,
    players: seq<GroupPlayer>,
    matches: seq<GroupMatch>,
    totalMatches: int,
    completedMatches: nat,
    status: Status)

  /** `text.match(/(\d+)\s*-\s*(\d+)/)` read as two numbers, `(0, 0)` without a match. */
  function DashPair(text: string): Parser.Score {
    match Parser.FirstNumberPair(text, 0, false)
    case Some(p) => p
    case None => Parser.Score(0, 0)
  }

  /**
   * `text?.trim() || '0 - 0'` read by `DashPair`. A missing or empty text
   * gives `(0, 0)` directly, which is what `DashPair("0 - 0")` gives.
   */
  function WinLoss(text: Option<string>): Parser.Score {
    var t := TextOr(text, "");
    if t == [] then Parser.Score(0, 0) else DashPair(t)
  }

  /** The fallback text `'0 - 0'` reads as `(0, 0)`, so `WinLoss` agrees with the page script. */
  lemma WinLossFallback()
    ensures DashPair("0 - 0") == Parser.Score(0, 0)
  {
    var s := "0 - 0";
    assert Parser.NumberPairAt(s, 0, false) == Some(Parser.Score(0, 0)) by {
      assert DigitRunEnd(s, 1) == 1;
      assert SpaceRunEnd(s, 2) == 2;
      assert SpaceRunEnd(s, 1) == 2;
      assert SpaceRunEnd(s, 4) == 4;
      assert SpaceRunEnd(s, 3) == 4;
      assert DigitRunEnd(s, 5) == 5;
      assert s[0..1] == "0" && s[4..5] == "0";
    }
  }

  /** `rankEl ? parseInt(rankText) || (rowIndex + 1) : (rowIndex + 1)` */
  function RankOf(rankText: Option<string>, rowIndex: nat): (r: int)
    ensures r != 0
    ensures rankText.None? ==> r == rowIndex + 1
  {
    match rankText
    case None => rowIndex + 1
    case Some(t) =>
      match ParseInt(Trim(t))
      case Some(v) => if v == 0 then rowIndex + 1 else v
      case None => rowIndex + 1
  }

  /** The roster entry of row `rowIndex`, before the check that its name is not empty. */
  function PlayerOf(row: RawPlayerRow, rowIndex: nat): GroupPlayer {
    var win := WinLoss(row.winText);
    var leg := WinLoss(row.legText);
    GroupPlayer(
      if row.tpid.None? || row.tpid.value == [] then None else row.tpid,
      TextOr(row.nameText, ""),
      rowIndex + 1,
      win.player1, win.player2,
      leg.player1, leg.player2,
      RankOf(row.rankText, rowIndex))
  }

  /** Row `rowIndex` pushes its player only when the name is not empty. */
  function RowPlayer(row: RawPlayerRow, rowIndex: nat): (r: Option<GroupPlayer>)
    ensures r.None? <==> TextOr(row.nameText, "") == []
    ensures r.Some? ==> r.value == PlayerOf(row, rowIndex) && r.value.position == rowIndex + 1
  {
    var p := PlayerOf(row, rowIndex);
    if p.name == [] then None else Some(p)
  }

  /** The players pushed by the roster pass. */
  function Roster(rows: seq<RawPlayerRow>): seq<GroupPlayer> {
    FilterMapIndexed(RowPlayer, rows, |rows|)
  }

  /** Every row has a name. */
  predicate AllNamed(rows: seq<RawPlayerRow>) {
    forall i | 0 <= i < |rows| :: TextOr(rows[i].nameText, "") != []
  }

  /** Roster positions only grow and stay within the table's rows. */
  lemma RosterPositions(rows: seq<RawPlayerRow>)
    ensures forall k, l | 0 <= k < l < |Roster(rows)| :: Roster(rows)[k].position < Roster(rows)[l].position
    ensures forall k | 0 <= k < |Roster(rows)| :: 1 <= Roster(rows)[k].position <= |rows|
  {
    var roster := Roster(rows);
    var origin := FilterMapIndexedOrigins(RowPlayer, rows, |rows|);
    forall k | 0 <= k < |roster|
      ensures roster[k].position == origin[k] + 1
    {
      assert RowPlayer(rows[origin[k]], origin[k]) == Some(roster[k]);
    }
  }

  /**
   * With every row named the roster has one player per row, each read from
   * its own row, so `players[k]` is the player at position `k + 1`.
   */
  lemma RosterOfNamedRows(rows: seq<RawPlayerRow>)
    requires AllNamed(rows)
    ensures |Roster(rows)| == |rows|
    ensures forall k | 0 <= k < |rows| :: Roster(rows)[k] == PlayerOf(rows[k], k)
    ensures forall k | 0 <= k < |rows| :: Roster(rows)[k].position == k + 1
  {
    var roster := Roster(rows);
    forall k | 0 <= k < |rows|
      ensures RowPlayer(rows[k], k).Some?
    {
    }
    FilterMapIndexedTotal(RowPlayer, rows, |rows|);
    forall k | 0 <= k < |rows|
      ensures roster[k] == PlayerOf(rows[k], k)
    {
      assert RowPlayer(rows[k], k) == Some(roster[k]);
    }
  }

  /** `idxEl ? parseInt(idxText) || null : null` */
  function MatchOrder(idxText: Option<string>): (r: Option<int>)
    ensures r.Some? ==> r.value != 0
  {
    match idxText
    case None => None
    case Some(t) =>
      match ParseInt(Trim(t))
      case Some(v) => if v == 0 then None else Some(v)
      case None => None
  }

  /** A completed cell is finished, otherwise a marked background means active. */
  function CellStatus(cell: RawCell): (r: Status)
    ensures r == Finished <==> cell.fixGame
    ensures r == Active <==> !cell.fixGame && cell.activeBackground
    ensures r != Walkover
  {
    if cell.fixGame then Finished else if cell.activeBackground then Active else Pending
  }

  /** The cells the walk looks at: above the diagonal and not `rr_none`. */
  predicate UpperCell(cell: RawCell, rowIndex: nat, colIndex: nat) {
    !cell.isNone && colIndex > rowIndex
  }

  /** `cellText.match(/(\d+)\s*[-–]\s*(\d+)/)` read as two numbers, `(0, 0)` without a match. */
  function CellScore(text: string): Parser.Score {
    match Parser.FirstNumberPair(Trim(text), 0, true)
    case Some(p) => p
    case None => Parser.Score(0, 0)
  }

  /**
   * The match the walk emits for a cell, if any. The walk is stated for any
   * reader of the cell text; `GroupOf` passes `CellScore`.
   */
  function CellMatch(players: seq<GroupPlayer>, cell: RawCell, rowIndex: nat, colIndex: nat,
                     readScore: string -> Parser.Score): (r: Option<GroupMatch>)
    ensures r.Some? ==> WellPlaced(players, r.value)
    ensures r.Some? ==> r.value.player1Position == rowIndex + 1 && r.value.player2Position == colIndex + 1
    ensures r.Some? <==> UpperCell(cell, rowIndex, colIndex) && rowIndex < |players| && colIndex < |players|
    ensures r.Some? ==> r.value.status == CellStatus(cell) && r.value.matchOrder == MatchOrder(cell.idxText)
  {
    if !UpperCell(cell, rowIndex, colIndex) || rowIndex >= |players| || colIndex >= |players| then None
    else
      var score := readScore(cell.text);
      var p1, p2 := players[rowIndex], players[colIndex];
      Some(GroupMatch(
        p1.name, p2.name, p1.id, p2.id,
        score.player1, score.player2,
        MatchOrder(cell.idxText),
        CellStatus(cell),
        rowIndex + 1, colIndex + 1,
        None, None))
  }

  /** The cell step of row `r`, as a function of the cell and its column. */
  function CellMatcher(players: seq<GroupPlayer>, r: nat, readScore: string -> Parser.Score): (RawCell, nat) -> Option<GroupMatch> {
    (cell: RawCell, c: nat) => CellMatch(players, cell, r, c, readScore)
  }

  /** The matches emitted for the first `n` cells of row `r`. */
  function RowMatches(players: seq<GroupPlayer>, rows: seq<RawPlayerRow>, r: nat, n: nat, readScore: string -> Parser.Score): seq<GroupMatch>
    requires r < |rows| && n <= |rows[r].cells|
  {
    FilterMapIndexed(CellMatcher(players, r, readScore), rows[r].cells, n)
  }

  /** The matches emitted for the first `r` rows. */
  function MatrixUpTo(players: seq<GroupPlayer>, rows: seq<RawPlayerRow>, r: nat, readScore: string -> Parser.Score): seq<GroupMatch>
    requires r <= |rows|
  {
    if r == 0 then [] else MatrixUpTo(players, rows, r - 1, readScore) + RowMatches(players, rows, r - 1, |rows[r - 1].cells|, readScore)
  }

  /** The completed cells among the first `n` cells of row `r`. */
  function RowCompleted(rows: seq<RawPlayerRow>, r: nat, n: nat): nat
    requires r < |rows| && n <= |rows[r].cells|
  {
    if n == 0 then 0
    else
      var cell := rows[r].cells[n - 1];
      RowCompleted(rows, r, n - 1) + (if UpperCell(cell, r, n - 1) && cell.fixGame then 1 else 0)
  }

  /** The completed cells of the first `r` rows. */
  function CompletedUpTo(rows: seq<RawPlayerRow>, r: nat): nat
    requires r <= |rows|
  {
    if r == 0 then 0 else CompletedUpTo(rows, r - 1) + RowCompleted(rows, r - 1, |rows[r - 1].cells|)
  }

  /**
   * A match names the roster entries at the positions it records, less one.
   * The walk records the raw row and column indices, so these are the rows'
   * own players only while every earlier row is named.
   */
  predicate WellPlaced(players: seq<GroupPlayer>, m: GroupMatch) {
    && 1 <= m.player1Position < m.player2Position <= |players|
    && m.player1Name == players[m.player1Position - 1].name
    && m.player2Name == players[m.player2Position - 1].name
  }

  /** Every match of `ms` is well placed; with `row`, every one also comes from that row. */
  predicate AllWellPlaced(players: seq<GroupPlayer>, ms: seq<GroupMatch>, row: Option<nat>) {
    forall k | 0 <= k < |ms| ::
      WellPlaced(players, ms[k]) && (row.Some? ==> ms[k].player1Position == row.value + 1)
  }

  lemma AppendWellPlaced(players: seq<GroupPlayer>, ms: seq<GroupMatch>, more: seq<GroupMatch>, row: Option<nat>)
    requires AllWellPlaced(players, ms, row) && AllWellPlaced(players, more, row)
    ensures AllWellPlaced(players, ms + more, row)
  {
    var r := ms + more;
    forall k | 0 <= k < |r|
      ensures WellPlaced(players, r[k]) && (row.Some? ==> r[k].player1Position == row.value + 1)
    {
      if k < |ms| {
        assert r[k] == ms[k];
      } else {
        assert r[k] == more[k - |ms|];
      }
    }
  }

  /** A cell is emitted only above the diagonal, with both roster entries present. */
  lemma CellMatchWellPlaced(players: seq<GroupPlayer>, cell: RawCell, r: nat, c: nat, readScore: string -> Parser.Score)
    ensures CellMatch(players, cell, r, c, readScore).Some? ==>
      AllWellPlaced(players, [CellMatch(players, cell, r, c, readScore).value], Some(r))
  {
  }

  /**
   * Every upper-triangle cell whose indices fall inside the roster is
   * emitted, naming the roster entries at the cell's row and column indices.
   */
  lemma CellMatchEmitted(players: seq<GroupPlayer>, cell: RawCell, r: nat, c: nat, readScore: string -> Parser.Score)
    requires UpperCell(cell, r, c) && r < |players| && c < |players|
    ensures CellMatch(players, cell, r, c, readScore).Some?
    ensures CellMatch(players, cell, r, c, readScore).value.player1Name == players[r].name
    ensures CellMatch(players, cell, r, c, readScore).value.player2Name == players[c].name
    ensures CellMatch(players, cell, r, c, readScore).value.player1Position == r + 1
    ensures CellMatch(players, cell, r, c, readScore).value.player2Position == c + 1
  {
  }

  /** Only upper-triangle cells whose two roster entries exist are emitted. */
  lemma RowMatchesWellPlaced(players: seq<GroupPlayer>, rows: seq<RawPlayerRow>, r: nat, n: nat, readScore: string -> Parser.Score)
    requires r < |rows| && n <= |rows[r].cells|
    ensures AllWellPlaced(players, RowMatches(players, rows, r, n, readScore), Some(r))
  {
    var f := CellMatcher(players, r, readScore);
    var cells := rows[r].cells;
    var placed := (m: GroupMatch) => WellPlaced(players, m) && m.player1Position == r + 1;
    forall i | 0 <= i < n && f(cells[i], i).Some?
      ensures placed(f(cells[i], i).value)
    {
      CellMatchWellPlaced(players, cells[i], r, i, readScore);
    }
    FilterMapIndexedAll(f, cells, n, placed);
  }

  lemma {:induction false} MatrixWellPlaced(players: seq<GroupPlayer>, rows: seq<RawPlayerRow>, r: nat, readScore: string -> Parser.Score)
    requires r <= |rows|
    ensures AllWellPlaced(players, MatrixUpTo(players, rows, r, readScore), None)
  {
    if r > 0 {
      MatrixWellPlaced(players, rows, r - 1, readScore);
      RowMatchesWellPlaced(players, rows, r - 1, |rows[r - 1].cells|, readScore);
      AppendWellPlaced(players, MatrixUpTo(players, rows, r - 1, readScore), RowMatches(players, rows, r - 1, |rows[r - 1].cells|, readScore), None);
    }
  }

  /** Row `r` completes at most the cells to the right of the diagonal. */
  lemma {:induction false} RowCompletedBound(rows: seq<RawPlayerRow>, r: nat, n: nat)
    requires r < |rows| && n <= |rows[r].cells|
    ensures RowCompleted(rows, r, n) <= if n > r then n - 1 - r else 0
  {
    if n > 0 {
      RowCompletedBound(rows, r, n - 1);
    }
  }

  /** `0 + 1 + ... + (n - 1)`: the number of pairings among `n` players. */
  function Pairings(n: nat): nat {
    if n == 0 then 0 else Pairings(n - 1) + (n - 1)
  }

  lemma {:induction false} PairingsDouble(n: nat)
    ensures 2 * Pairings(n) == n * (n - 1)
  {
    if n > 0 {
      PairingsDouble(n - 1);
      assert (n - 1) * (n - 2) + 2 * (n - 1) == (n - 1) * n;
    }
  }

  /** `players.length * (players.length - 1) / 2`: one match per pairing. */
  function TotalMatches(n: nat): (t: nat)
    ensures t == Pairings(n)
  {
    PairingsDouble(n);
    var product := n * (n - 1);
    product / 2
  }

  /**
   * In a square matrix the first `r` rows complete at most the pairings that
   * the remaining `|rows| - r` players leave out.
   */
  lemma {:induction false} CompletedBound(rows: seq<RawPlayerRow>, r: nat)
    requires r <= |rows|
    requires forall i | 0 <= i < |rows| :: |rows[i].cells| <= |rows|
    ensures CompletedUpTo(rows, r) + Pairings(|rows| - r) <= Pairings(|rows|)
  {
    if r > 0 {
      CompletedBound(rows, r - 1);
      RowCompletedBound(rows, r - 1, |rows[r - 1].cells|);
      assert Pairings(|rows| - r + 1) == Pairings(|rows| - r) + (|rows| - r);
    }
  }

  predicate AnyActive(matches: seq<GroupMatch>) {
    exists i | 0 <= i < |matches| :: matches[i].status == Active
  }

  /** The group status rule. */
  function GroupStatus(completed: nat, total: int, matches: seq<GroupMatch>): (r: Status)
    ensures r != Walkover
    ensures r == Finished <==> completed == total && total > 0
    ensures r == Active <==> !(completed == total && total > 0) && (AnyActive(matches) || completed > 0)
  {
    if completed == total && total > 0 then Finished
    else if AnyActive(matches) then Active
    else if completed > 0 then Active
    else Pending
  }

  /** `(?:tarcza|board)\s*(\d+)` (flag `i`) matched at `i`. */
  function MemoStationAt(s: string, i: nat): Option<nat> {
    var w := if AsciiCaseInsensitiveAt(s, i, "tarcza") then "tarcza"
      else if AsciiCaseInsensitiveAt(s, i, "board") then "board" else "";
    if w == [] then None
    else
      var j := SpaceRunEnd(s, i + |w|);
      var e := DigitRunEnd(s, j);
      if e == j then None else Some(DigitsValue(s[j..e]))
  }

  /** The leftmost match in the memo at or after `i`. */
  function MemoStationFrom(s: string, i: nat): (r: Option<nat>)
    requires i <= |s|
    ensures r.None? <==> forall k | i <= k <= |s| :: MemoStationAt(s, k).None?
    ensures r.Some? ==> exists k | i <= k <= |s| ::
      MemoStationAt(s, k) == r && forall k' | i <= k' < k :: MemoStationAt(s, k').None?
    decreases |s| - i
  {
    var here := MemoStationAt(s, i);
    if here.Some? then
      assert MemoStationAt(s, i) == here;
      here
    else if i == |s| then
      assert forall k | i <= k <= |s| :: MemoStationAt(s, k) == here;
      None
    else
      var r := MemoStationFrom(s, i + 1);
      assert (forall k | i <= k <= |s| :: MemoStationAt(s, k).None?)
         <==> (forall k | i + 1 <= k <= |s| :: MemoStationAt(s, k).None?) by {
        assert MemoStationAt(s, i) == here;
      }
      assert r.Some? ==> exists k | i <= k <= |s| ::
        MemoStationAt(s, k) == r && forall k' | i <= k' < k :: MemoStationAt(s, k').None? by {
        if r.Some? {
          var k :| i + 1 <= k <= |s| && MemoStationAt(s, k) == r && forall k' | i + 1 <= k' < k :: MemoStationAt(s, k').None?;
          assert forall k' | i <= k' < k :: MemoStationAt(s, k').None? by {
            forall k' | i <= k' < k ensures MemoStationAt(s, k').None? {
              if k' == i { assert MemoStationAt(s, k') == here; }
            }
          }
        }
      }
      r
  }

  /** The station number written in a group's memo. */
  function MemoStation(memo: string): (r: Option<nat>)
    ensures r.None? <==> forall k | 0 <= k <= |memo| :: MemoStationAt(memo, k).None?
    ensures r.Some? ==> exists k | 0 <= k <= |memo| ::
      MemoStationAt(memo, k) == r && forall k' | 0 <= k' < k :: MemoStationAt(memo, k').None?
  {
    MemoStationFrom(memo, 0)
  }

  /** A station is read only where `tarcza` or `board`, in any case, is written. */
  lemma MemoStationNeedsKeyword(memo: string)
    ensures MemoStation(memo).Some? ==> exists k | 0 <= k <= |memo| ::
      AsciiCaseInsensitiveAt(memo, k, "tarcza") || AsciiCaseInsensitiveAt(memo, k, "board")
  {
  }

  /** A memo naming a board or tarcza gives that number. */
  lemma MemoStationOfBoard(digits: string)
    requires digits != [] && AllDigits(digits)
    ensures MemoStation("Board " + digits) == Some(DigitsValue(digits))
  {
    var s := "Board " + digits;
    assert AsciiCaseInsensitiveAt(s, 0, "board");
    assert SpaceRunEnd(s, 6) == 6 by {
      assert s[5] == ' ' && !IsSpace(s[6]) by { assert s[6] == digits[0]; }
    }
    assert SpaceRunEnd(s, 5) == 6;
    assert forall k | 6 <= k < |s| :: s[k] == digits[k - 6];
    DigitRunOfDigits(s[6..], 0);
    assert s[6..] == digits;
    DigitRunFrom(s, 6);
    assert s[6..|s|] == digits;
    assert MemoStationAt(s, 0) == Some(DigitsValue(digits));
    assert MemoStation(s) == MemoStationFrom(s, 0);
  }

  /** A digit run that reaches the end of `s` from `i`. */
  lemma {:induction false} DigitRunFrom(s: string, i: nat)
    requires i <= |s| && forall k | i <= k < |s| :: IsDigit(s[k])
    ensures DigitRunEnd(s, i) == |s|
    decreases |s| - i
  {
    if i < |s| {
      DigitRunFrom(s, i + 1);
    }
  }

  /** `subtitle || \`Grupa ${groupIndex + 1}\`` */
  function GroupName(subtitle: Option<string>, groupIndex: nat): string {
    AttrOr(subtitle, "Grupa " + NatToString(groupIndex + 1))
  }

  /**
   * The group the page script builds from one container; `None` when it has
   * no table. Its match total is the number of pairings of its players, which
   * the page script computes as `TotalMatches`.
   */
  function GroupOf(g: RawGroup, groupIndex: nat): (r: Option<Group>)
    ensures r.None? <==> !g.hasTable
    ensures r.Some? ==> r.value.groupNumber == groupIndex + 1 && r.value.players == Roster(g.rows)
    ensures r.Some? ==> r.value.totalMatches == Pairings(|r.value.players|)
    ensures r.Some? ==> AllWellPlaced(r.value.players, r.value.matches, None)
  {
    if !g.hasTable then None
    else
      MatrixWellPlaced(Roster(g.rows), g.rows, |g.rows|, CellScore);
      var memo := TextOr(g.memoText, "");
      var players := Roster(g.rows);
      var matches := MatrixUpTo(players, g.rows, |g.rows|, CellScore);
      var completed := CompletedUpTo(g.rows, |g.rows|);
      var total := Pairings(|players|);
      Some(Group(groupIndex + 1, GroupName(g.subtitle, groupIndex), MemoStation(memo), memo,
                 players, matches, total, completed, GroupStatus(completed, total, matches)))
  }

  /**
   * The roster pass: each row is read by `readRow` (the page script's row
   * step, `RowPlayer` in `GroupOf`) and the players it yields are pushed.
   */
  method ReadRoster(rows: seq<RawPlayerRow>, readRow: (RawPlayerRow, nat) -> Option<GroupPlayer>)
    returns (players: seq<GroupPlayer>)
    ensures players == FilterMapIndexed(readRow, rows, |rows|)
  {
    players := [];
    var i := 0;
    while i < |rows|
      invariant 0 <= i <= |rows|
      invariant players == FilterMapIndexed(readRow, rows, i)
    {
      var p := readRow(rows[i], i);
      if p.Some? {
        players := players + [p.value];
      }
      i := i + 1;
    }
  }

  /** One more cell extends the row's matches by what it emits and its count by its completion. */
  lemma RowStep(players: seq<GroupPlayer>, rows: seq<RawPlayerRow>, r: nat, n: nat, readScore: string -> Parser.Score)
    requires r < |rows| && n < |rows[r].cells|
    ensures RowMatches(players, rows, r, n + 1, readScore)
         == RowMatches(players, rows, r, n, readScore)
            + (match CellMatch(players, rows[r].cells[n], r, n, readScore) case Some(m) => [m] case None => [])
    ensures RowCompleted(rows, r, n + 1)
         == RowCompleted(rows, r, n) + (if UpperCell(rows[r].cells[n], r, n) && rows[r].cells[n].fixGame then 1 else 0)
  {
  }

  /** The cells of row `r`: completed cells counted, emitted matches pushed. */
  method WalkRow(players: seq<GroupPlayer>, rows: seq<RawPlayerRow>, r: nat, readScore: string -> Parser.Score)
    returns (matches: seq<GroupMatch>, completed: nat)
    requires r < |rows|
    ensures matches == RowMatches(players, rows, r, |rows[r].cells|, readScore)
    ensures completed == RowCompleted(rows, r, |rows[r].cells|)
  {
    var cells := rows[r].cells;
    matches, completed := [], 0;
    var colIndex := 0;
    while colIndex < |cells|
      invariant 0 <= colIndex <= |cells|
      invariant matches == RowMatches(players, rows, r, colIndex, readScore)
      invariant completed == RowCompleted(rows, r, colIndex)
    {
      var cell := cells[colIndex];
      RowStep(players, rows, r, colIndex, readScore);
      if UpperCell(cell, r, colIndex) {
        if cell.fixGame {
          completed := completed + 1;
        }
        var m := CellMatch(players, cell, r, colIndex, readScore);
        if m.Some? {
          matches := matches + [m.value];
        }
      }
      colIndex := colIndex + 1;
    }
  }

  /** One more row extends both running totals by that row's own. */
  lemma MatrixStep(players: seq<GroupPlayer>, rows: seq<RawPlayerRow>, r: nat, readScore: string -> Parser.Score)
    requires r < |rows|
    ensures MatrixUpTo(players, rows, r + 1, readScore)
         == MatrixUpTo(players, rows, r, readScore) + RowMatches(players, rows, r, |rows[r].cells|, readScore)
    ensures CompletedUpTo(rows, r + 1) == CompletedUpTo(rows, r) + RowCompleted(rows, r, |rows[r].cells|)
  {
  }

  /** The walk over every row of the matrix. */
  method WalkMatrix(players: seq<GroupPlayer>, rows: seq<RawPlayerRow>, readScore: string -> Parser.Score)
    returns (matches: seq<GroupMatch>, completed: nat)
    ensures matches == MatrixUpTo(players, rows, |rows|, readScore)
    ensures completed == CompletedUpTo(rows, |rows|)
  {
    matches, completed := [], 0;
    var rowIndex := 0;
    while rowIndex < |rows|
      invariant 0 <= rowIndex <= |rows|
      invariant matches == MatrixUpTo(players, rows, rowIndex, readScore)
      invariant completed == CompletedUpTo(rows, rowIndex)
    {
      MatrixStep(players, rows, rowIndex, readScore);
      var rowMatches, rowCompleted := WalkRow(players, rows, rowIndex, readScore);
      matches, completed := matches + rowMatches, completed + rowCompleted;
      rowIndex := rowIndex + 1;
    }
  }

  /**
   * One container: the roster pass over the rows, then the walk over every
   * cell of every row, counting completed cells and pushing matches.
   */
  method ScrapeGroup(g: RawGroup, groupIndex: nat) returns (r: Option<Group>)
    ensures r == GroupOf(g, groupIndex)
  {
    if !g.hasTable {
      return None;
    }
    var memo := TextOr(g.memoText, "");
    var players := ReadRoster(g.rows, RowPlayer);
    var matches, completed := WalkMatrix(players, g.rows, CellScore);
    var total := TotalMatches(|players|);
    return Some(Group(groupIndex + 1, GroupName(g.subtitle, groupIndex), MemoStation(memo), memo,
                      players, matches, total, completed, GroupStatus(completed, total, matches)));
  }

  /** Every match of a group pairs two of its players, the row's player first, above the diagonal. */
  lemma GroupMatchesWellPlaced(g: RawGroup, groupIndex: nat)
    ensures GroupOf(g, groupIndex).Some? ==>
      AllWellPlaced(GroupOf(g, groupIndex).value.players, GroupOf(g, groupIndex).value.matches, None)
  {
    MatrixWellPlaced(Roster(g.rows), g.rows, |g.rows|, CellScore);
  }

  /**
   * In a square table whose rows all carry a name, the completed count never
   * exceeds the number of pairings.
   */
  lemma CompletedAtMostTotal(g: RawGroup, groupIndex: nat)
    requires g.hasTable && AllNamed(g.rows)
    requires forall i | 0 <= i < |g.rows| :: |g.rows[i].cells| <= |g.rows|
    ensures GroupOf(g, groupIndex).value.completedMatches <= GroupOf(g, groupIndex).value.totalMatches
    ensures |GroupOf(g, groupIndex).value.players| == |g.rows|
  {
    RosterOfNamedRows(g.rows);
    CompletedBound(g.rows, |g.rows|);
    GroupOfCounts(g, groupIndex);
  }

  /** Every cell of the row is a completed match cell. */
  predicate AllCompleted(row: RawPlayerRow) {
    forall c | 0 <= c < |row.cells| :: !row.cells[c].isNone && row.cells[c].fixGame
  }

  /**
   * Without `AllNamed` the bound fails: an unnamed row drops out of the
   * roster, and so out of the total, while its completed cells are still
   * counted. Three rows, the first unnamed, every cell completed: three
   * completed matches against a total of one, and the group is reported
   * active rather than finished.
   */
  lemma UnnamedRowOvercounts(g: RawGroup, groupIndex: nat)
    requires g.hasTable && |g.rows| == 3
    requires TextOr(g.rows[0].nameText, "") == []
    requires TextOr(g.rows[1].nameText, "") != [] && TextOr(g.rows[2].nameText, "") != []
    requires forall r | 0 <= r < 3 :: |g.rows[r].cells| == 3 && AllCompleted(g.rows[r])
    ensures GroupOf(g, groupIndex).Some?
    ensures GroupOf(g, groupIndex).value.completedMatches == 3
    ensures GroupOf(g, groupIndex).value.totalMatches == 1
    ensures GroupOf(g, groupIndex).value.status == Active
  {
    GroupOfCounts(g, groupIndex);
    ThreeCompletedRows(g.rows);
    FirstRowUnnamed(g.rows);
    assert Pairings(2) == 1;
  }

  /** Three rows of three completed cells: the cells above the diagonal, three, are counted. */
  lemma ThreeCompletedRows(rows: seq<RawPlayerRow>)
    requires |rows| == 3
    requires forall r | 0 <= r < 3 :: |rows[r].cells| == 3 && AllCompleted(rows[r])
    ensures CompletedUpTo(rows, 3) == 3
  {
    assert AllCompleted(rows[0]) && AllCompleted(rows[1]);
    assert rows[0].cells[1].fixGame && !rows[0].cells[1].isNone;
    assert rows[0].cells[2].fixGame && !rows[0].cells[2].isNone;
    assert rows[1].cells[2].fixGame && !rows[1].cells[2].isNone;
    assert RowCompleted(rows, 0, 1) == 0 && RowCompleted(rows, 0, 2) == 1 && RowCompleted(rows, 0, 3) == 2;
    assert RowCompleted(rows, 1, 1) == 0 && RowCompleted(rows, 1, 2) == 0 && RowCompleted(rows, 1, 3) == 1;
    assert RowCompleted(rows, 2, 1) == 0 && RowCompleted(rows, 2, 2) == 0 && RowCompleted(rows, 2, 3) == 0;
    assert CompletedUpTo(rows, 1) == 2 && CompletedUpTo(rows, 2) == 3;
  }

  /** Of three rows, the first without a name: the roster holds two players. */
  lemma FirstRowUnnamed(rows: seq<RawPlayerRow>)
    requires |rows| == 3
    requires TextOr(rows[0].nameText, "") == []
    requires TextOr(rows[1].nameText, "") != [] && TextOr(rows[2].nameText, "") != []
    ensures |Roster(rows)| == 2
  {
    assert RowPlayer(rows[0], 0).None?;
    assert FilterMapIndexed(RowPlayer, rows, 1) == [];
    assert RowPlayer(rows[1], 1).Some?;
    assert |FilterMapIndexed(RowPlayer, rows, 2)| == 1;
    assert RowPlayer(rows[2], 2).Some?;
  }

  /**
   * The matrix indexes the roster, which skips unnamed rows, by the raw row
   * and column indices. Four rows, the first unnamed: the cell in row 1,
   * column 2 is emitted with the players of rows 2 and 3, while it records
   * positions 2 and 3.
   */
  lemma UnnamedRowShiftsNames(rows: seq<RawPlayerRow>, cell: RawCell, readScore: string -> Parser.Score)
    requires |rows| == 4
    requires TextOr(rows[0].nameText, "") == []
    requires TextOr(rows[1].nameText, "") != [] && TextOr(rows[2].nameText, "") != [] && TextOr(rows[3].nameText, "") != []
    requires !cell.isNone
    ensures CellMatch(Roster(rows), cell, 1, 2, readScore).Some?
    ensures CellMatch(Roster(rows), cell, 1, 2, readScore).value.player1Name == TextOr(rows[2].nameText, "")
    ensures CellMatch(Roster(rows), cell, 1, 2, readScore).value.player2Name == TextOr(rows[3].nameText, "")
    ensures CellMatch(Roster(rows), cell, 1, 2, readScore).value.player1Position == 2
    ensures CellMatch(Roster(rows), cell, 1, 2, readScore).value.player2Position == 3
  {
    RosterAfterUnnamedFirst(rows);
    RowPlayerName(rows[2], 2);
    RowPlayerName(rows[3], 3);
    CellMatchEmitted(Roster(rows), cell, 1, 2, readScore);
  }

  /**
   * In the same table the cell in row 0, column 2 is emitted as the players
   * of rows 1 and 3 at positions 1 and 3. A scheme refereeing that pairing by
   * position 2 finds the player of row 1, which the roster places there:
   * the match is refereed by its own first player.
   */
  lemma UnnamedRowMisplacesReferee(rows: seq<RawPlayerRow>, cell: RawCell, readScore: string -> Parser.Score)
    requires |rows| == 4
    requires TextOr(rows[0].nameText, "") == []
    requires TextOr(rows[1].nameText, "") != [] && TextOr(rows[2].nameText, "") != [] && TextOr(rows[3].nameText, "") != []
    requires !cell.isNone
    ensures CellMatch(Roster(rows), cell, 0, 2, readScore).Some?
    ensures var m := CellMatch(Roster(rows), cell, 0, 2, readScore).value;
      && m.player1Name == TextOr(rows[1].nameText, "")
      && m.player1Position == 1 && m.player2Position == 3
      && AssignMatchReferee(Roster(rows), [SchemeEntry(1, 3, 2)], m).referee == Some(m.player1Name)
  {
    var players := Roster(rows);
    RosterAfterUnnamedFirst(rows);
    RowPlayerName(rows[1], 1);
    CellMatchEmitted(players, cell, 0, 2, readScore);
    var m := CellMatch(players, cell, 0, 2, readScore).value;
    assert FindSchemeEntry([SchemeEntry(1, 3, 2)], m.player1Position, m.player2Position) == Some(SchemeEntry(1, 3, 2));
    assert FindPlayerAt(players, 2) == Some(players[0]);
  }

  /** A present row player carries the row's name. */
  lemma RowPlayerName(row: RawPlayerRow, rowIndex: nat)
    ensures RowPlayer(row, rowIndex).Some? ==> RowPlayer(row, rowIndex).value.name == TextOr(row.nameText, "")
  {
  }

  /** Of four rows, the first without a name: the roster holds the other three, each at its row's position. */
  lemma RosterAfterUnnamedFirst(rows: seq<RawPlayerRow>)
    requires |rows| == 4
    requires TextOr(rows[0].nameText, "") == []
    requires TextOr(rows[1].nameText, "") != [] && TextOr(rows[2].nameText, "") != [] && TextOr(rows[3].nameText, "") != []
    ensures |Roster(rows)| == 3
    ensures Roster(rows)[0] == RowPlayer(rows[1], 1).value
    ensures Roster(rows)[1] == RowPlayer(rows[2], 2).value
    ensures Roster(rows)[2] == RowPlayer(rows[3], 3).value
  {
    RowsAfterFirstPresent(rows);
    Seqs.FilterMapIndexedSkipsFirst(RowPlayer, rows, 4);
  }

  /** The same four rows: the first row yields no player and every other row does. */
  lemma RowsAfterFirstPresent(rows: seq<RawPlayerRow>)
    requires |rows| == 4
    requires TextOr(rows[0].nameText, "") == []
    requires TextOr(rows[1].nameText, "") != [] && TextOr(rows[2].nameText, "") != [] && TextOr(rows[3].nameText, "") != []
    ensures RowPlayer(rows[0], 0).None?
    ensures forall i | 1 <= i < 4 :: RowPlayer(rows[i], i).Some?
  {
    assert forall i | 1 <= i < 4 :: TextOr(rows[i].nameText, "") != [] by {
      forall i | 1 <= i < 4 ensures TextOr(rows[i].nameText, "") != [] {
        if i == 1 {} else if i == 2 {} else {}
      }
    }
    NamedRowsYield(rows, 1);
  }

  /** Rows from `lo` on that all have names all yield players. */
  lemma NamedRowsYield(rows: seq<RawPlayerRow>, lo: nat)
    requires forall i | lo <= i < |rows| :: TextOr(rows[i].nameText, "") != []
    ensures forall i | lo <= i < |rows| :: RowPlayer(rows[i], i).Some?
  {
  }

  lemma GroupOfCounts(g: RawGroup, groupIndex: nat)
    requires g.hasTable
    ensures GroupOf(g, groupIndex).Some?
    ensures GroupOf(g, groupIndex).value.completedMatches == CompletedUpTo(g.rows, |g.rows|)
    ensures GroupOf(g, groupIndex).value.totalMatches == Pairings(|Roster(g.rows)|)
    ensures GroupOf(g, groupIndex).value.players == Roster(g.rows)
  {
  }

  /**
   * `containers.map((container, groupIndex) => ...).filter(g => g !== null)`:
   * the groups built from the containers in page order, dropping those
   * without a table. The callback's own loops are `ScrapeGroup`.
   */
  function Groups(containers: seq<RawGroup>): (r: seq<Group>)
    ensures |r| <= |containers|
    ensures forall i | 0 <= i < |r| :: AllWellPlaced(r[i].players, r[i].matches, None)
  {
    FilterMapIndexedLength(GroupOf, containers, |containers|);
    FilterMapIndexedAll(GroupOf, containers, |containers|, (g: Group) => AllWellPlaced(g.players, g.matches, None));
    FilterMapIndexed(GroupOf, containers, |containers|)
  }

  /**
   * Group numbers count containers, not kept groups: they increase strictly
   * and stay within the number of containers.
   */
  lemma GroupNumbersIncrease(containers: seq<RawGroup>)
    ensures forall i, j | 0 <= i < j < |Groups(containers)| ::
      Groups(containers)[i].groupNumber < Groups(containers)[j].groupNumber
    ensures forall i | 0 <= i < |Groups(containers)| ::
      1 <= Groups(containers)[i].groupNumber <= |containers|
  {
    var groups := Groups(containers);
    var origin := FilterMapIndexedOrigins(GroupOf, containers, |containers|);
    forall k | 0 <= k < |groups|
      ensures groups[k].groupNumber == origin[k] + 1
    {
      GroupNumberOf(containers[origin[k]], origin[k]);
    }
  }

  /** A kept container is numbered by its place on the page. */
  lemma GroupNumberOf(g: RawGroup, groupIndex: nat)
    ensures GroupOf(g, groupIndex).Some? ==> GroupOf(g, groupIndex).value.groupNumber == groupIndex + 1
  {
  }

  // ---------------------------------------------------------------------------
  // Referees
  // ---------------------------------------------------------------------------

  /** A scheme entry `[a, b, referee]`: the pairing of positions `a` and `b` is refereed by `referee`. */
  datatype SchemeEntry = SchemeEntry(first: int, second: int, referee: int)

  /** The entry is for the unordered pair of positions `{p1, p2}`. */
  predicate ForPair(s: SchemeEntry, p1: int, p2: int) {
    (s.first == p1 && s.second == p2) || (s.first == p2 && s.second == p1)
  }

  /** `scheme.find(...)`: the first entry for the pair. */
  function FindSchemeEntry(scheme: seq<SchemeEntry>, p1: int, p2: int): (r: Option<SchemeEntry>)
    ensures r.None? <==> forall k | 0 <= k < |scheme| :: !ForPair(scheme[k], p1, p2)
    ensures r.Some? ==> exists k | 0 <= k < |scheme| ::
      && scheme[k] == r.value && ForPair(scheme[k], p1, p2)
      && forall j | 0 <= j < k :: !ForPair(scheme[j], p1, p2)
  {
    if scheme == [] then None
    else if ForPair(scheme[0], p1, p2) then Some(scheme[0])
    else
      var r := FindSchemeEntry(scheme[1..], p1, p2);
      assert forall k | 1 <= k < |scheme| :: scheme[k] == scheme[1..][k - 1];
      r
  }

  /** The lookup does not depend on the order of the two positions. */
  lemma {:induction false} FindSchemeEntrySymmetric(scheme: seq<SchemeEntry>, p1: int, p2: int)
    ensures FindSchemeEntry(scheme, p1, p2) == FindSchemeEntry(scheme, p2, p1)
  {
    if scheme != [] {
      FindSchemeEntrySymmetric(scheme[1..], p1, p2);
    }
  }

  /** `players.find(p => p.position === position)` */
  function FindPlayerAt(players: seq<GroupPlayer>, position: int): (r: Option<GroupPlayer>)
    ensures r.None? <==> forall k | 0 <= k < |players| :: players[k].position != position
    ensures r.Some? ==> r.value in players && r.value.position == position
  {
    if players == [] then None
    else if players[0].position == position then Some(players[0])
    else
      var r := FindPlayerAt(players[1..], position);
      assert forall k | 1 <= k < |players| :: players[k] == players[1..][k - 1];
      r
  }

  /** The referee fields of one match after the pass. */
  function AssignMatchReferee(players: seq<GroupPlayer>, scheme: seq<SchemeEntry>, m: GroupMatch): (r: GroupMatch)
    ensures r.(referee := m.referee, refereePosition := m.refereePosition) == m
    ensures FindSchemeEntry(scheme, m.player1Position, m.player2Position).None? ==> r == m
    ensures FindSchemeEntry(scheme, m.player1Position, m.player2Position).Some? ==>
      && r.refereePosition.Some?
      && (r.referee.Some? ==> exists p | p in players :: p.position == r.refereePosition.value && p.name == r.referee.value)
  {
    match FindSchemeEntry(scheme, m.player1Position, m.player2Position)
    case None => m
    case Some(s) =>
      var referee := FindPlayerAt(players, s.referee);
      m.(referee := if referee.None? || referee.value.name == [] then None else Some(referee.value.name),
         refereePosition := Some(s.referee))
  }

  /** The pass over one group: only a group whose size has a scheme is touched. */
  function AssignGroupReferees(g: Group, schemes: map<nat, seq<SchemeEntry>>): (r: Group)
    ensures r.(matches := g.matches) == g
    ensures |r.matches| == |g.matches|
    ensures forall j | 0 <= j < |g.matches| ::
      r.matches[j].(referee := g.matches[j].referee, refereePosition := g.matches[j].refereePosition) == g.matches[j]
    ensures |g.players| !in schemes ==> r == g
  {
    if |g.players| !in schemes then g
    else
      var scheme := schemes[|g.players|];
      g.(matches := seq(|g.matches|, j requires 0 <= j < |g.matches| => AssignMatchReferee(g.players, scheme, g.matches[j])))
  }

  /** The referee pass of a steel tournament, over every group and every match. */
  method AssignReferees(groups: seq<Group>, schemes: map<nat, seq<SchemeEntry>>, isSteelType: bool)
    returns (out: seq<Group>)
    ensures !isSteelType ==> out == groups
    ensures isSteelType ==> |out| == |groups| && forall i | 0 <= i < |groups| :: out[i] == AssignGroupReferees(groups[i], schemes)
  {
    if !isSteelType {
      return groups;
    }
    out := [];
    var i := 0;
    while i < |groups|
      invariant 0 <= i <= |groups|
      invariant |out| == i
      invariant forall k | 0 <= k < i :: out[k] == AssignGroupReferees(groups[k], schemes)
    {
      var g := groups[i];
      if |g.players| in schemes {
        var scheme := schemes[|g.players|];
        var matches: seq<GroupMatch> := [];
        var j := 0;
        while j < |g.matches|
          invariant 0 <= j <= |g.matches|
          invariant |matches| == j
          invariant forall k | 0 <= k < j :: matches[k] == AssignMatchReferee(g.players, scheme, g.matches[k])
        {
          matches := matches + [AssignMatchReferee(g.players, scheme, g.matches[j])];
          j := j + 1;
        }
        g := g.(matches := matches);
      }
      out := out + [g];
      i := i + 1;
    }
  }

  /**
   * After the pass a match whose pairing has an entry names the player at the
   * entry's third position (or no one), whichever side each player is on; a
   * scheme that never names a player to referee their own match never does so.
   */
  lemma AssignedReferee(players: seq<GroupPlayer>, scheme: seq<SchemeEntry>, m: GroupMatch)
    requires FindSchemeEntry(scheme, m.player1Position, m.player2Position).Some?
    ensures var s := FindSchemeEntry(scheme, m.player1Position, m.player2Position).value;
      var a := AssignMatchReferee(players, scheme, m);
      && ForPair(s, m.player1Position, m.player2Position)
      && a.refereePosition == Some(s.referee)
      && (a.referee.Some? ==> exists p | p in players :: p.position == s.referee && p.name == a.referee.value)
      && (a.referee.None? ==> FindPlayerAt(players, s.referee).None? || FindPlayerAt(players, s.referee).value.name == [])
      && a.(referee := m.referee, refereePosition := m.refereePosition) == m
      && AssignMatchReferee(players, scheme, m.(player1Position := m.player2Position, player2Position := m.player1Position)).refereePosition
         == a.refereePosition
  {
    FindSchemeEntrySymmetric(scheme, m.player1Position, m.player2Position);
  }

  /** A scheme whose entries never list the referee among the pair. */
  predicate RefereesStandAside(scheme: seq<SchemeEntry>) {
    forall k | 0 <= k < |scheme| :: scheme[k].referee != scheme[k].first && scheme[k].referee != scheme[k].second
  }

  /** Under such a scheme no match is refereed by one of its own players. */
  lemma RefereeIsNotAPlayer(players: seq<GroupPlayer>, scheme: seq<SchemeEntry>, m: GroupMatch)
    requires RefereesStandAside(scheme)
    requires FindSchemeEntry(scheme, m.player1Position, m.player2Position).Some?
    ensures AssignMatchReferee(players, scheme, m).refereePosition.value != m.player1Position
    ensures AssignMatchReferee(players, scheme, m).refereePosition.value != m.player2Position
  {
  }

  /** A group whose size has no scheme keeps its matches as they were. */
  lemma NoSchemeNoChange(g: Group, schemes: map<nat, seq<SchemeEntry>>)
    requires |g.players| !in schemes
    ensures AssignGroupReferees(g, schemes) == g
  {
  }
}
