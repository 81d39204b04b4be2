/** What the bracket parsers produce and the store keeps: match states and match rows. */
module Model {
  import opened Wrappers
  import opened Text

  /** The four states of a match, shared by the scraper, the store and the site. */
  datatype Status = Pending | Active | Finished | Walkover

  /** One bracket match as the scraper hands it to the store. */
  datatype ScrapedMatch = ScrapedMatch(
    n01MatchId: string,
    player1Name: string,
    player2Name: string,
    player1Score: int,
    player2Score: int,
    stationNumber: Option<int>,
    referee: Option<string>,
    status: Status,
    rawHtml: Option<string>)

  /**
   * `[t1, t2].sort()` joined by `_vs_`: the smaller token (in the order
   * `Array.prototype.sort` uses on strings) comes first.
   */
  function SortedPairId(t1: string, t2: string): (r: string)
    ensures (LexLe(t1, t2) && r == t1 + "_vs_" + t2) || (LexLe(t2, t1) && r == t2 + "_vs_" + t1)
  {
    LexLeTotal(t1, t2);
    if LexLe(t1, t2) then t1 + "_vs_" + t2 else t2 + "_vs_" + t1
  }

  /** The identifier does not depend on which token came first. */
  lemma SortedPairIdSymmetric(t1: string, t2: string)
    ensures SortedPairId(t1, t2) == SortedPairId(t2, t1)
  {
    if LexLe(t1, t2) && LexLe(t2, t1) {
      LexLeAntisymmetric(t1, t2);
    }
  }
}
