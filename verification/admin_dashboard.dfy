/**
 * The admin dashboard's figures: five row counts and the total play count
 * of all mixtapes. The counting and `play_count` queries are parameters:
 * a count or a list of play counts, each possibly absent.
 */
module AdminDashboard {
  import opened Wrappers

  datatype Stats = Stats(mixtapes: nat, portfolio: nat, posts: nat, bookings: nat, subscribers: nat, totalPlays: int)

  /** `count || 0`. */
  function CountOrZero(count: Option<nat>): (n: nat)
    ensures count.Some? ==> n == count.value
    ensures count.None? ==> n == 0
  {
    count.GetOr(0)
  }

  /** `m.play_count || 0`: a null play count counts as 0. */
  function Plays(count: Option<int>): (n: int)
    ensures n == if count.Some? then count.value else 0
  {
    count.GetOr(0)
  }

  /** `reduce((sum, m) => sum + (m.play_count || 0), 0)`: a left fold from 0. */
  function SumPlays(counts: seq<Option<int>>): int
    decreases |counts|
  {
    if counts == [] then 0 else SumPlays(counts[..|counts| - 1]) + Plays(counts[|counts| - 1])
  }

  /** `plays.data?.reduce(...) || 0`: absent data gives 0. */
  function TotalPlays(data: Option<seq<Option<int>>>): (total: int)
    ensures data.None? ==> total == 0
    ensures data.Some? ==> total == SumPlays(data.value)
  {
    match data
    case None => 0
    case Some(counts) => SumPlays(counts)
  }

  /** The sum over two lists of rows is the sum of the sums: a row with count p adds exactly p. */
  lemma {:induction false} SumPlaysAppend(a: seq<Option<int>>, b: seq<Option<int>>)
    ensures SumPlays(a + b) == SumPlays(a) + SumPlays(b)
    decreases |b|
  {
    if b == [] {
      assert a + b == a;
    } else {
      var c := a + b;
      assert c[..|c| - 1] == a + b[..|b| - 1];
      SumPlaysAppend(a, b[..|b| - 1]);
    }
  }

  /** The order in which the rows arrive does not change the total. */
  lemma SumPlaysSwap(a: seq<Option<int>>, b: seq<Option<int>>)
    ensures SumPlays(a + b) == SumPlays(b + a)
  {
    SumPlaysAppend(a, b);
    SumPlaysAppend(b, a);
  }

  /** Null and zero play counts add nothing. */
  lemma {:induction false} SumPlaysOfNulls(counts: seq<Option<int>>)
    requires forall i :: 0 <= i < |counts| ==> counts[i] == None || counts[i] == Some(0)
    ensures SumPlays(counts) == 0
    decreases |counts|
  {
    if counts != [] {
      SumPlaysOfNulls(counts[..|counts| - 1]);
    }
  }

  /** With no negative play count, the total is at least every single count. */
  lemma {:induction false} SumPlaysBounds(counts: seq<Option<int>>)
    requires forall i :: 0 <= i < |counts| ==> Plays(counts[i]) >= 0
    ensures SumPlays(counts) >= 0
    ensures forall i :: 0 <= i < |counts| ==> SumPlays(counts) >= Plays(counts[i])
    decreases |counts|
  {
    if counts != [] {
      SumPlaysBounds(counts[..|counts| - 1]);
    }
  }

  /** `loadStats`: each count defaults to 0, the total to the fold (or 0). */
  function LoadStats(mixtapes: Option<nat>, portfolio: Option<nat>, posts: Option<nat>,
                     bookings: Option<nat>, subscribers: Option<nat>,
                     plays: Option<seq<Option<int>>>): (s: Stats)
    ensures s.mixtapes == CountOrZero(mixtapes) && s.portfolio == CountOrZero(portfolio)
    ensures s.posts == CountOrZero(posts) && s.bookings == CountOrZero(bookings)
    ensures s.subscribers == CountOrZero(subscribers)
    ensures s.totalPlays == TotalPlays(plays)
  {
    Stats(CountOrZero(mixtapes), CountOrZero(portfolio), CountOrZero(posts),
          CountOrZero(bookings), CountOrZero(subscribers), TotalPlays(plays))
  }

  /** When every query fails, the dashboard shows zeros, as in its initial state. */
  lemma AllAbsentIsInitial()
    ensures LoadStats(None, None, None, None, None, None) == Stats(0, 0, 0, 0, 0, 0)
  {
  }
}
