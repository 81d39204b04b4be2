/** Sequence combinators the scraper's loops are specified by. */
module Seqs {
  import opened Wrappers

  /**
   * Apply `f` to every element in order and keep the results that are not
   * `None`: the shape of a loop that pushes only the non-`null` results.
   */
  function FilterMap<A, B>(f: A -> Option<B>, xs: seq<A>): seq<B> {
    if xs == [] then []
    else
      var init := FilterMap(f, xs[..|xs| - 1]);
      match f(xs[|xs| - 1])
      case Some(y) => init + [y]
      case None => init
  }

  /** The values of the present entries, in order. */
  function Present<B>(os: seq<Option<B>>): seq<B> {
    if os == [] then []
    else
      var init := Present(os[..|os| - 1]);
      match os[|os| - 1]
      case Some(y) => init + [y]
      case None => init
  }

  /** Recording each image in turn and keeping the present ones is `FilterMap`. */
  lemma {:induction false} FilterMapPresent<A, B>(f: A -> Option<B>, xs: seq<A>, os: seq<Option<B>>)
    requires |os| == |xs|
    requires forall k | 0 <= k < |xs| :: os[k] == f(xs[k])
    ensures FilterMap(f, xs) == Present(os)
  {
    if xs != [] {
      FilterMapPresent(f, xs[..|xs| - 1], os[..|os| - 1]);
    }
  }

  /** No more results come out than elements went in. */
  lemma {:induction false} FilterMapLength<A, B>(f: A -> Option<B>, xs: seq<A>)
    ensures |FilterMap(f, xs)| <= |xs|
  {
    if xs != [] {
      FilterMapLength(f, xs[..|xs| - 1]);
    }
  }

  /** Every result is the image of some element. */
  lemma {:induction false} FilterMapSound<A, B>(f: A -> Option<B>, xs: seq<A>, y: B)
    requires y in FilterMap(f, xs)
    ensures exists i | 0 <= i < |xs| :: f(xs[i]) == Some(y)
  {
    var init := xs[..|xs| - 1];
    if y in FilterMap(f, init) {
      FilterMapSound(f, init, y);
      var i :| 0 <= i < |init| && f(init[i]) == Some(y);
      assert xs[i] == init[i];
    } else {
      assert f(xs[|xs| - 1]) == Some(y);
    }
  }

  /** Every element whose image is not `None` contributes that image. */
  lemma {:induction false} FilterMapComplete<A, B>(f: A -> Option<B>, xs: seq<A>, i: nat)
    requires i < |xs| && f(xs[i]).Some?
    ensures f(xs[i]).value in FilterMap(f, xs)
  {
    var init := xs[..|xs| - 1];
    if i < |xs| - 1 {
      assert xs[i] == init[i];
      FilterMapComplete(f, init, i);
    }
  }

  /** No element whose image is present is dropped, and no more results come out than went in. */
  lemma FilterMapKeepsAll<A, B>(f: A -> Option<B>, xs: seq<A>)
    ensures |FilterMap(f, xs)| <= |xs|
    ensures forall i | 0 <= i < |xs| && f(xs[i]).Some? :: f(xs[i]).value in FilterMap(f, xs)
  {
    FilterMapLength(f, xs);
    forall i | 0 <= i < |xs| && f(xs[i]).Some?
      ensures f(xs[i]).value in FilterMap(f, xs)
    {
      FilterMapComplete(f, xs, i);
    }
  }

  /**
   * Apply `f` to each of the first `n` elements together with its index and
   * keep the results that are not `None`: the shape of a `forEach((x, i) => ...)`
   * that pushes some of its results.
   */
  function FilterMapIndexed<A, B>(f: (A, nat) -> Option<B>, xs: seq<A>, n: nat): seq<B>
    requires n <= |xs|
  {
    if n == 0 then []
    else
      var init := FilterMapIndexed(f, xs, n - 1);
      match f(xs[n - 1], n - 1)
      case Some(y) => init + [y]
      case None => init
  }

  /**
   * Each result of `FilterMapIndexed` is the image of an element, and the
   * elements it came from appear in increasing order.
   */
  lemma {:induction false} FilterMapIndexedOrigins<A, B>(f: (A, nat) -> Option<B>, xs: seq<A>, n: nat)
    returns (origin: seq<nat>)
    requires n <= |xs|
    ensures |origin| == |FilterMapIndexed(f, xs, n)|
    ensures forall k | 0 <= k < |origin| ::
      origin[k] < n && f(xs[origin[k]], origin[k]) == Some(FilterMapIndexed(f, xs, n)[k])
    ensures forall k, l | 0 <= k < l < |origin| :: origin[k] < origin[l]
  {
    if n == 0 {
      origin := [];
    } else {
      var init := FilterMapIndexed(f, xs, n - 1);
      var before := FilterMapIndexedOrigins(f, xs, n - 1);
      match f(xs[n - 1], n - 1)
      case Some(y) =>
        origin := before + [n - 1];
        var r := init + [y];
        assert FilterMapIndexed(f, xs, n) == r;
        forall k | 0 <= k < |origin|
          ensures origin[k] < n && f(xs[origin[k]], origin[k]) == Some(r[k])
        {
          if k < |before| {
            assert origin[k] == before[k] && r[k] == init[k];
          } else {
            assert origin[k] == n - 1 && r[k] == y;
          }
        }
        forall k, l | 0 <= k < l < |origin|
          ensures origin[k] < origin[l]
        {
          assert origin[k] == before[k];
          if l < |before| {
            assert origin[l] == before[l];
          }
        }
      case None =>
        assert FilterMapIndexed(f, xs, n) == init;
        origin := before;
    }
  }

  /** A property every non-`None` image has holds of every result. */
  lemma {:induction false} FilterMapIndexedAll<A, B>(f: (A, nat) -> Option<B>, xs: seq<A>, n: nat, p: B -> bool)
    requires n <= |xs|
    requires forall i | 0 <= i < n :: f(xs[i], i).Some? ==> p(f(xs[i], i).value)
    ensures forall k | 0 <= k < |FilterMapIndexed(f, xs, n)| :: p(FilterMapIndexed(f, xs, n)[k])
  {
    var origin := FilterMapIndexedOrigins(f, xs, n);
    forall k | 0 <= k < |FilterMapIndexed(f, xs, n)|
      ensures p(FilterMapIndexed(f, xs, n)[k])
    {
      var i := origin[k];
      assert f(xs[i], i).Some?;
    }
  }

  /** When every image is present nothing is dropped: result `k` is the image of element `k`. */
  lemma {:induction false} FilterMapIndexedTotal<A, B>(f: (A, nat) -> Option<B>, xs: seq<A>, n: nat)
    requires n <= |xs|
    requires forall i | 0 <= i < n :: f(xs[i], i).Some?
    ensures |FilterMapIndexed(f, xs, n)| == n
    ensures forall k | 0 <= k < n :: f(xs[k], k) == Some(FilterMapIndexed(f, xs, n)[k])
  {
    if n > 0 {
      FilterMapIndexedTotal(f, xs, n - 1);
      var init := FilterMapIndexed(f, xs, n - 1);
      assert FilterMapIndexed(f, xs, n) == init + [f(xs[n - 1], n - 1).value];
    }
  }

  /**
   * When only the first image is missing, everything after it shifts down by
   * one: result `k` is the image of element `k + 1`.
   */
  lemma {:induction false} FilterMapIndexedSkipsFirst<A, B>(f: (A, nat) -> Option<B>, xs: seq<A>, n: nat)
    requires 0 < n <= |xs|
    requires f(xs[0], 0).None?
    requires forall i | 1 <= i < n :: f(xs[i], i).Some?
    ensures |FilterMapIndexed(f, xs, n)| == n - 1
    ensures forall k | 0 <= k < n - 1 :: f(xs[k + 1], k + 1) == Some(FilterMapIndexed(f, xs, n)[k])
  {
    if n == 1 {
      assert FilterMapIndexed(f, xs, 0) == [];
    } else {
      FilterMapIndexedSkipsFirst(f, xs, n - 1);
      var init := FilterMapIndexed(f, xs, n - 1);
      assert FilterMapIndexed(f, xs, n) == init + [f(xs[n - 1], n - 1).value];
    }
  }

  /** No more results come out than the first `n` elements. */
  lemma {:induction false} FilterMapIndexedLength<A, B>(f: (A, nat) -> Option<B>, xs: seq<A>, n: nat)
    requires n <= |xs|
    ensures |FilterMapIndexed(f, xs, n)| <= n
  {
    if n > 0 {
      FilterMapIndexedLength(f, xs, n - 1);
    }
  }
}
