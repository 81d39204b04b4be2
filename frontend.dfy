/**
 * The live-score site's list helpers: status buckets, board ordering and
 * the small text helpers used by the match and group views.
 */
module Frontend {
  import opened Wrappers
  import opened Text
  import opened Model
  import opened Utils
  import opened Database

  // ---------------------------------------------------------------------
  // formatTime / containsText
  // ---------------------------------------------------------------------

  /** `formatTime(time)`: `''` for a missing or empty time, otherwise its first five characters. */
  function FormatTime(time: Option<string>): (r: string)
    ensures r == [] <==> time.None? || time.value == []
    ensures time.Some? ==> |r| == if |time.value| < 5 then |time.value| else 5
    ensures time.Some? ==> r == time.value[..|r|]
  {
    if time.None? || time.value == [] then "" else Take(time.value, 5)
  }

  /** A formatted time is formatted already: `19:00:00` and `19:00` both show as `19:00`. */
  lemma FormatTimeIdempotent(time: Option<string>)
    ensures FormatTime(Some(FormatTime(time))) == FormatTime(time)
  {
  }

  /** `containsText(text, search)` */
  function ContainsText(text: string, search: string): (r: bool)
    ensures search == [] ==> r
    ensures r ==> |search| <= |text|
  {
    assert OccursAt(Lower(text), Lower(search), 0) <== search == [];
    Contains(Lower(text), Lower(search))
  }

  lemma LowerCharIdempotent(c: char)
    ensures LowerChar(LowerChar(c)) == LowerChar(c)
  {
  }

  lemma LowerIdempotent(s: string)
    ensures Lower(Lower(s)) == Lower(s)
  {
    forall i | 0 <= i < |s|
      ensures Lower(Lower(s))[i] == Lower(s)[i]
    {
      LowerCharIdempotent(s[i]);
    }
  }

  /** The search does not see case on either side. */
  lemma ContainsTextIgnoresCase(text: string, search: string)
    ensures ContainsText(Lower(text), search) == ContainsText(text, search)
    ensures ContainsText(text, Lower(search)) == ContainsText(text, search)
  {
    LowerIdempotent(text);
    LowerIdempotent(search);
  }

  /** A search equal, up to case, to some stretch of the text is found. */
  lemma ContainsTextFindsStretch(text: string, search: string, i: nat)
    requires i + |search| <= |text|
    requires Lower(text[i..i + |search|]) == Lower(search)
    ensures ContainsText(text, search)
  {
    var t, w := Lower(text), Lower(search);
    assert t[i..i + |w|] == w by {
      forall k | 0 <= k < |w| ensures t[i..i + |w|][k] == w[k] {
        assert w[k] == Lower(text[i..i + |search|])[k] == LowerChar(text[i + k]);
      }
    }
    assert OccursAt(t, w, i);
  }

  // ---------------------------------------------------------------------
  // Status buckets
  // ---------------------------------------------------------------------

  function MatchStatus(m: MatchRow): Status {
    m.status
  }

  /** What `groupMatchesByStatus` returns: one filtered list per status. */
  datatype GroupedMatches = GroupedMatches(active: seq<MatchRow>, pending: seq<MatchRow>,
                                           finished: seq<MatchRow>, walkover: seq<MatchRow>)

  /** `groupMatchesByStatus(matches)` */
  function GroupMatchesByStatus(matches: seq<MatchRow>): (r: GroupedMatches)
    ensures forall m | m in r.active :: m.status == Active
    ensures forall m | m in r.pending :: m.status == Pending
    ensures forall m | m in r.finished :: m.status == Finished
    ensures forall m | m in r.walkover :: m.status == Walkover
  {
    GroupedMatches(
      Bucket(matches, MatchStatus, Active), Bucket(matches, MatchStatus, Pending),
      Bucket(matches, MatchStatus, Finished), Bucket(matches, MatchStatus, Walkover))
  }

  /** The four lists together hold every match exactly once. */
  lemma GroupMatchesCoversAll(matches: seq<MatchRow>)
    ensures var g := GroupMatchesByStatus(matches);
      |g.active| + |g.pending| + |g.finished| + |g.walkover| == |matches|
  {
    var ks := [Active, Pending, Finished, Walkover];
    forall i | 0 <= i < |matches|
      ensures MatchStatus(matches[i]) in ks
    {
      StatusListed(matches[i].status);
    }
    BucketSizesSum(matches, MatchStatus, ks);
    FourBuckets(matches, MatchStatus);
  }

  lemma StatusListed(s: Status)
    ensures s in [Active, Pending, Finished, Walkover]
  {
    match s
    case Active => assert [Active, Pending, Finished, Walkover][0] == s;
    case Pending => assert [Active, Pending, Finished, Walkover][1] == s;
    case Finished => assert [Active, Pending, Finished, Walkover][2] == s;
    case Walkover => assert [Active, Pending, Finished, Walkover][3] == s;
  }

  lemma FourBuckets<T>(xs: seq<T>, key: T -> Status)
    ensures BucketSizes(xs, key, [Active, Pending, Finished, Walkover]) ==
      |Bucket(xs, key, Active)| + |Bucket(xs, key, Pending)| + |Bucket(xs, key, Finished)| + |Bucket(xs, key, Walkover)|
  {
    var ks := [Active, Pending, Finished, Walkover];
    assert ks[1..] == [Pending, Finished, Walkover];
    assert [Pending, Finished, Walkover][1..] == [Finished, Walkover];
    assert [Finished, Walkover][1..] == [Walkover];
    assert [Walkover][1..] == [];
    assert BucketSizes(xs, key, [Walkover]) == |Bucket(xs, key, Walkover)|;
    assert BucketSizes(xs, key, [Finished, Walkover]) == |Bucket(xs, key, Finished)| + |Bucket(xs, key, Walkover)|;
    assert BucketSizes(xs, key, [Pending, Finished, Walkover]) ==
      |Bucket(xs, key, Pending)| + |Bucket(xs, key, Finished)| + |Bucket(xs, key, Walkover)|;
  }

  /** A match sits in the list of its own status. */
  lemma {:induction false} BucketHasItsItems<T, K>(xs: seq<T>, key: T -> K, i: nat)
    requires i < |xs|
    ensures xs[i] in Bucket(xs, key, key(xs[i]))
    decreases |xs|
  {
    var init := xs[..|xs| - 1];
    if i < |xs| - 1 {
      BucketHasItsItems(init, key, i);
      assert init[i] == xs[i];
    }
  }

  function GroupStatusOf(g: GroupRow): Status {
    g.status
  }

  /** The part of a group row the group list reads. */
  datatype GroupRow = GroupRow(groupName: string, stationNumber: Option<int>, status: Status)

  /** What `groupGroupsByStatus` returns. */
  datatype GroupedGroups = GroupedGroups(active: seq<GroupRow>, pending: seq<GroupRow>, finished: seq<GroupRow>)

  /** `groupGroupsByStatus(groups)`: a group with any other status is in no list. */
  function GroupGroupsByStatus(groups: seq<GroupRow>): (r: GroupedGroups)
    ensures forall g | g in r.active :: g.status == Active
    ensures forall g | g in r.pending :: g.status == Pending
    ensures forall g | g in r.finished :: g.status == Finished
  {
    GroupedGroups(
      Bucket(groups, GroupStatusOf, Active), Bucket(groups, GroupStatusOf, Pending),
      Bucket(groups, GroupStatusOf, Finished))
  }

  /** The three lists together hold every group whose status is not a walkover, once each. */
  lemma GroupGroupsCoversAll(groups: seq<GroupRow>)
    ensures var g := GroupGroupsByStatus(groups);
      |g.active| + |g.pending| + |g.finished| + |Bucket(groups, GroupStatusOf, Walkover)| == |groups|
  {
    var ks := [Active, Pending, Finished, Walkover];
    forall i | 0 <= i < |groups|
      ensures GroupStatusOf(groups[i]) in ks
    {
      StatusListed(groups[i].status);
    }
    BucketSizesSum(groups, GroupStatusOf, ks);
    FourBuckets(groups, GroupStatusOf);
  }

  // ---------------------------------------------------------------------
  // Board ordering
  // ---------------------------------------------------------------------

  /** Position in the list order: `rank` first, then `station`. */
  datatype SortKey = SortKey(rank: int, station: int)

  predicate KeyLe(a: SortKey, b: SortKey) {
    a.rank < b.rank || (a.rank == b.rank && a.station <= b.station)
  }

  /** The sign the comparator's result has. */
  function Sign(n: int): int {
    if n < 0 then -1 else if n > 0 then 1 else 0
  }

  /** The sign of the comparison of two keys. */
  function KeyCompare(a: SortKey, b: SortKey): (r: int)
    ensures r <= 0 <==> KeyLe(a, b)
    ensures r >= 0 <==> KeyLe(b, a)
  {
    if a == b then 0 else if KeyLe(a, b) then -1 else 1
  }

  /** A board with a number, in number order, comes before the unnumbered ones. */
  function StationKey(station: Option<int>): SortKey {
    match station
    case None => SortKey(1, 0)
    case Some(s) => SortKey(0, s)
  }

  /** The `sortByStation` comparator. */
  function CompareByStation(a: Option<int>, b: Option<int>): (r: int)
    ensures a.Some? && b.None? ==> r < 0
    ensures a.None? && b.Some? ==> r > 0
    ensures a.None? && b.None? ==> r == 0
    ensures a.Some? && b.Some? ==> (r < 0 <==> a.value < b.value) && (r == 0 <==> a.value == b.value)
  {
    if a.None? && b.None? then 0
    else if a.None? then 1
    else if b.None? then -1
    else a.value - b.value
  }

  /** The comparator orders boards exactly as their keys do. */
  lemma CompareByStationIsKeyOrder(a: Option<int>, b: Option<int>)
    ensures Sign(CompareByStation(a, b)) == KeyCompare(StationKey(a), StationKey(b))
  {
  }

  /** Active groups first, then boards as `sortByStation` orders them. */
  function GroupKey(g: GroupRow): SortKey {
    var s := StationKey(g.stationNumber);
    SortKey(if g.status == Active then s.rank else s.rank + 2, s.station)
  }

  /** The `sortGroupsByStation` comparator. */
  function CompareGroups(a: GroupRow, b: GroupRow): (r: int)
    ensures a.status == Active && b.status != Active ==> r < 0
    ensures a.status != Active && b.status == Active ==> r > 0
    ensures (a.status == Active) == (b.status == Active) ==> Sign(r) == Sign(CompareByStation(a.stationNumber, b.stationNumber))
  {
    if a.status == Active && b.status != Active then -1
    else if a.status != Active && b.status == Active then 1
    else CompareByStation(a.stationNumber, b.stationNumber)
  }

  lemma CompareGroupsIsKeyOrder(a: GroupRow, b: GroupRow)
    ensures Sign(CompareGroups(a, b)) == KeyCompare(GroupKey(a), GroupKey(b))
  {
  }

  /** `s` is ordered by `key`. */
  predicate SortedBy<T>(s: seq<T>, key: T -> SortKey) {
    forall i, j | 0 <= i < j < |s| :: KeyLe(key(s[i]), key(s[j]))
  }

  /** Insert `x` into the ordered `s`, after every element whose key is not above its own. */
  function Insert<T>(s: seq<T>, x: T, key: T -> SortKey): (r: seq<T>)
    ensures multiset(r) == multiset(s) + multiset{x}
    ensures |r| == |s| + 1
    decreases |s|
  {
    if s == [] then [x]
    else if KeyLe(key(s[|s| - 1]), key(x)) then s + [x]
    else
      var init := s[..|s| - 1];
      assert s == init + [s[|s| - 1]];
      Insert(init, x, key) + [s[|s| - 1]]
  }

  /**
   * `[...xs].sort(compare)` for a comparator that orders as `key` does:
   * `Array.prototype.sort` is stable, so equal keys keep their input order.
   */
  function StableSort<T>(xs: seq<T>, key: T -> SortKey): (r: seq<T>)
    ensures multiset(r) == multiset(xs)
    ensures |r| == |xs|
    decreases |xs|
  {
    if xs == [] then []
    else
      var init := xs[..|xs| - 1];
      assert xs == init + [xs[|xs| - 1]];
      Insert(StableSort(init, key), xs[|xs| - 1], key)
  }

  /** The items whose key is `k`, in order. */
  function WithKey<T>(xs: seq<T>, key: T -> SortKey, k: SortKey): seq<T>
    decreases |xs|
  {
    if xs == [] then []
    else
      var init := WithKey(xs[..|xs| - 1], key, k);
      if key(xs[|xs| - 1]) == k then init + [xs[|xs| - 1]] else init
  }

  lemma {:induction false} InsertSorted<T>(s: seq<T>, x: T, key: T -> SortKey)
    requires SortedBy(s, key)
    ensures SortedBy(Insert(s, x, key), key)
    decreases |s|
  {
    if s != [] && !KeyLe(key(s[|s| - 1]), key(x)) {
      var init := s[..|s| - 1];
      var last := s[|s| - 1];
      InsertSorted(init, x, key);
      var r0 := Insert(init, x, key);
      var r := r0 + [last];
      forall y | y in multiset(r0)
        ensures KeyLe(key(y), key(last))
      {
        assert y in multiset(init) + multiset{x};
        if y in multiset(init) {
          var i :| 0 <= i < |init| && init[i] == y;
          assert s[i] == y;
        }
      }
      forall i, j | 0 <= i < j < |r|
        ensures KeyLe(key(r[i]), key(r[j]))
      {
        if j == |r0| {
          assert r[i] in multiset(r0);
        } else {
          assert r[i] == r0[i] && r[j] == r0[j];
        }
      }
    }
  }

  lemma {:induction false} WithKeySnoc<T>(xs: seq<T>, x: T, key: T -> SortKey, k: SortKey)
    ensures WithKey(xs + [x], key, k) == if key(x) == k then WithKey(xs, key, k) + [x] else WithKey(xs, key, k)
  {
    assert (xs + [x])[..|xs|] == xs;
  }

  /** Inserting `x` adds it at the end of the items that share its key, and touches no other key. */
  lemma {:induction false} InsertKeepsKeyOrder<T>(s: seq<T>, x: T, key: T -> SortKey, k: SortKey)
    requires SortedBy(s, key)
    ensures WithKey(Insert(s, x, key), key, k) == if key(x) == k then WithKey(s, key, k) + [x] else WithKey(s, key, k)
    decreases |s|
  {
    if s == [] {
      assert [x] == [] + [x];
      WithKeySnoc([], x, key, k);
    } else if KeyLe(key(s[|s| - 1]), key(x)) {
      WithKeySnoc(s, x, key, k);
    } else {
      var init := s[..|s| - 1];
      var last := s[|s| - 1];
      assert s == init + [last];
      assert SortedBy(init, key);
      InsertKeepsKeyOrder(init, x, key, k);
      WithKeySnoc(Insert(init, x, key), last, key, k);
      WithKeySnoc(init, last, key, k);
      if key(x) == k {
        assert key(last) != k;
      }
    }
  }

  /** The result is ordered by key. */
  lemma {:induction false} StableSortSorted<T>(xs: seq<T>, key: T -> SortKey)
    ensures SortedBy(StableSort(xs, key), key)
    decreases |xs|
  {
    if xs != [] {
      StableSortSorted(xs[..|xs| - 1], key);
      InsertSorted(StableSort(xs[..|xs| - 1], key), xs[|xs| - 1], key);
    }
  }

  /** Items with equal keys keep their input order. */
  lemma {:induction false} StableSortStable<T>(xs: seq<T>, key: T -> SortKey, k: SortKey)
    ensures WithKey(StableSort(xs, key), key, k) == WithKey(xs, key, k)
    decreases |xs|
  {
    if xs != [] {
      var init := xs[..|xs| - 1];
      var x := xs[|xs| - 1];
      StableSortStable(init, key, k);
      StableSortSorted(init, key);
      InsertKeepsKeyOrder(StableSort(init, key), x, key, k);
    }
  }

  function MatchStationKey(m: MatchRow): SortKey {
    StationKey(m.stationNumber)
  }

  /** `sortByStation(matches)` */
  function SortByStation(matches: seq<MatchRow>): (r: seq<MatchRow>)
    ensures multiset(r) == multiset(matches)
    ensures SortedBy(r, MatchStationKey)
  {
    StableSortSorted(matches, MatchStationKey);
    StableSort(matches, MatchStationKey)
  }

  /**
   * `sortByStation` returns the same matches, numbered boards first in
   * ascending order and then every match without a board.
   */
  lemma SortByStationOrder(matches: seq<MatchRow>)
    ensures multiset(SortByStation(matches)) == multiset(matches)
    ensures forall i, j | 0 <= i < j < |SortByStation(matches)| ::
      SortByStation(matches)[i].stationNumber.None? ==> SortByStation(matches)[j].stationNumber.None?
    ensures forall i, j | 0 <= i < j < |SortByStation(matches)| ::
      SortByStation(matches)[i].stationNumber.Some? && SortByStation(matches)[j].stationNumber.Some? ==>
      SortByStation(matches)[i].stationNumber.value <= SortByStation(matches)[j].stationNumber.value
  {
    StableSortSorted(matches, MatchStationKey);
  }

  /** `sortGroupsByStation(groups)` */
  function SortGroupsByStation(groups: seq<GroupRow>): (r: seq<GroupRow>)
    ensures multiset(r) == multiset(groups)
    ensures SortedBy(r, GroupKey)
  {
    StableSortSorted(groups, GroupKey);
    StableSort(groups, GroupKey)
  }

  /**
   * `sortGroupsByStation` returns the same groups, every active group
   * before every other, and within each part boards ascending with the
   * unnumbered ones last.
   */
  lemma SortGroupsOrder(groups: seq<GroupRow>)
    ensures multiset(SortGroupsByStation(groups)) == multiset(groups)
    ensures forall i, j | 0 <= i < j < |SortGroupsByStation(groups)| ::
      SortGroupsByStation(groups)[j].status == Active ==> SortGroupsByStation(groups)[i].status == Active
    ensures forall i, j | 0 <= i < j < |SortGroupsByStation(groups)| ::
      var a, b := SortGroupsByStation(groups)[i], SortGroupsByStation(groups)[j];
      (a.status == Active <==> b.status == Active) ==>
        && (a.stationNumber.None? ==> b.stationNumber.None?)
        && (a.stationNumber.Some? && b.stationNumber.Some? ==> a.stationNumber.value <= b.stationNumber.value)
  {
    StableSortSorted(groups, GroupKey);
  }
}
