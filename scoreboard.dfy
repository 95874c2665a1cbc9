/**
 * `get_scoreboard`: one entry per team in dict order, then Python's stable
 * `sort(key=score, reverse=True)`, modelled as an insertion sort.
 */
module Scoreboard {
  import opened Teams

  datatype Entry = Entry(teamNumber: int, name: string, score: int)

  /** The list comprehension over `teams.items()`. */
  function Entries(order: seq<int>, teams: map<int, Team>): (r: seq<Entry>)
    requires forall i :: 0 <= i < |order| ==> order[i] in teams
    ensures |r| == |order|
    ensures forall i :: 0 <= i < |order| ==>
              r[i] == Entry(order[i], teams[order[i]].name, teams[order[i]].score)
  {
    if order == [] then []
    else [Entry(order[0], teams[order[0]].name, teams[order[0]].score)] + Entries(order[1..], teams)
  }

  ghost predicate SortedByScore(s: seq<Entry>)
  {
    forall i, j :: 0 <= i < j < |s| ==> s[i].score >= s[j].score
  }

  /** The entries with score `v`, in their order in `s`. */
  function WithScore(s: seq<Entry>, v: int): seq<Entry>
  {
    if s == [] then []
    else (if s[0].score == v then [s[0]] else []) + WithScore(s[1..], v)
  }

  /** Places `e` before the first entry whose score does not exceed its own. */
  function Insert(e: Entry, s: seq<Entry>): seq<Entry>
  {
    if s == [] || s[0].score <= e.score then [e] + s else [s[0]] + Insert(e, s[1..])
  }

  /** The ranking: highest score first, ties in their original order. */
  function Ranking(s: seq<Entry>): seq<Entry>
  {
    if s == [] then [] else Insert(s[0], Ranking(s[1..]))
  }

  lemma {:induction false} InsertSorted(e: Entry, s: seq<Entry>)
    requires SortedByScore(s)
    ensures SortedByScore(Insert(e, s))
    ensures multiset(Insert(e, s)) == multiset(s) + multiset{e}
  {
    if s == [] || s[0].score <= e.score {
    } else {
      var rest := Insert(e, s[1..]);
      InsertSorted(e, s[1..]);
      assert s == [s[0]] + s[1..];
      forall j | 0 <= j < |rest|
        ensures s[0].score >= rest[j].score
      {
        assert rest[j] in multiset(rest);
        if rest[j] != e {
          assert rest[j] in multiset(s[1..]);
          var m :| 0 <= m < |s[1..]| && s[1..][m] == rest[j];
          assert s[m + 1] == rest[j];
        }
      }
    }
  }

  lemma {:induction false} RankingSorted(s: seq<Entry>)
    ensures SortedByScore(Ranking(s))
    ensures multiset(Ranking(s)) == multiset(s)
  {
    if s != [] {
      RankingSorted(s[1..]);
      InsertSorted(s[0], Ranking(s[1..]));
      assert s == [s[0]] + s[1..];
    }
  }

  /** The tail of a sorted list is sorted. */
  lemma SortedTail(s: seq<Entry>)
    requires s != [] && SortedByScore(s)
    ensures SortedByScore(s[1..])
  {
    var tail := s[1..];
    forall i, j | 0 <= i < j < |tail|
      ensures tail[i].score >= tail[j].score
    {
      assert tail[i] == s[i + 1] && tail[j] == s[j + 1];
    }
  }

  lemma WithScoreCons(x: Entry, t: seq<Entry>, v: int)
    ensures WithScore([x] + t, v) == (if x.score == v then [x] else []) + WithScore(t, v)
  {
    assert ([x] + t)[1..] == t;
  }

  /** Inserting into a sorted list keeps the order of the entries of each score. */
  lemma {:induction false} InsertWithScore(e: Entry, s: seq<Entry>, v: int)
    requires SortedByScore(s)
    ensures WithScore(Insert(e, s), v) == (if e.score == v then [e] else []) + WithScore(s, v)
  {
    if s == [] || s[0].score <= e.score {
      WithScoreCons(e, s, v);
    } else {
      var t := Insert(e, s[1..]);
      assert Insert(e, s) == [s[0]] + t;
      SortedTail(s);
      InsertWithScore(e, s[1..], v);
      WithScoreCons(s[0], t, v);
      WithScoreCons(s[0], s[1..], v);
      assert s == [s[0]] + s[1..];
      if e.score == v {
        assert s[0].score != v;
        assert WithScore(Insert(e, s), v) == WithScore(t, v) == [e] + WithScore(s[1..], v);
      } else if s[0].score == v {
        assert WithScore(Insert(e, s), v) == [s[0]] + WithScore(t, v);
      } else {
        assert WithScore(Insert(e, s), v) == WithScore(t, v);
      }
    }
  }

  /** Stability: among entries of equal score the ranking keeps the input order. */
  lemma {:induction false} RankingStable(s: seq<Entry>, v: int)
    ensures WithScore(Ranking(s), v) == WithScore(s, v)
  {
    if s != [] {
      RankingStable(s[1..], v);
      RankingSorted(s[1..]);
      InsertWithScore(s[0], Ranking(s[1..]), v);
    }
  }

  lemma RankingStableAll(s: seq<Entry>)
    ensures forall v :: WithScore(Ranking(s), v) == WithScore(s, v)
  {
    forall v
      ensures WithScore(Ranking(s), v) == WithScore(s, v)
    {
      RankingStable(s, v);
    }
  }

  /** `e` stands at position `p` of `r`, the entries of `s` around it in order. */
  ghost predicate PlacedAt(e: Entry, s: seq<Entry>, r: seq<Entry>, p: int)
  {
    && 0 <= p <= |s| && r == s[..p] + [e] + s[p..]
    && (forall i :: 0 <= i < p ==> s[i].score > e.score)
    && (p < |s| ==> s[p].score <= e.score)
  }

  /** Insertion puts `e` after every entry that scores more and before the first that does not. */
  lemma {:induction false} InsertPlacement(e: Entry, s: seq<Entry>)
    ensures exists p :: PlacedAt(e, s, Insert(e, s), p)
  {
    if s == [] || s[0].score <= e.score {
      assert PlacedAt(e, s, Insert(e, s), 0);
    } else {
      InsertPlacement(e, s[1..]);
      var p :| PlacedAt(e, s[1..], Insert(e, s[1..]), p);
      PlacedAtCons(e, s, Insert(e, s[1..]), p);
      assert Insert(e, s) == [s[0]] + Insert(e, s[1..]);
    }
  }

  /** An entry that scores more than `e` goes in front of the placement in the tail. */
  lemma PlacedAtCons(e: Entry, s: seq<Entry>, r: seq<Entry>, p: int)
    requires s != [] && s[0].score > e.score
    requires PlacedAt(e, s[1..], r, p)
    ensures PlacedAt(e, s, [s[0]] + r, p + 1)
  {
    assert s[..p + 1] == [s[0]] + s[1..][..p];
    assert s[p + 1..] == s[1..][p..];
    forall i | 0 <= i < p + 1
      ensures s[i].score > e.score
    {
      if i > 0 {
        assert s[i] == s[1..][i - 1];
      }
    }
  }

  /** The entries `WithScore` keeps are entries of `s` with that score. */
  lemma {:induction false} WithScoreElems(s: seq<Entry>, v: int)
    ensures forall x :: x in WithScore(s, v) ==> x in s && x.score == v
  {
    if s != [] {
      WithScoreElems(s[1..], v);
    }
  }

  /** The first entry of a list is among the entries with its own score. */
  lemma WithScoreHead(s: seq<Entry>)
    requires s != []
    ensures WithScore(s, s[0].score) != [] && WithScore(s, s[0].score)[0] == s[0]
  {
  }

  /** In a sorted list, a score that occurs is at most the first entry's. */
  lemma HeadScoreMax(s: seq<Entry>, v: int)
    requires SortedByScore(s) && WithScore(s, v) != []
    ensures s != [] && s[0].score >= v
  {
    WithScoreElems(s, v);
    var x := WithScore(s, v)[0];
    assert x in s;
    var j :| 0 <= j < |s| && s[j] == x;
    assert j == 0 || s[0].score >= s[j].score;
  }

  /** Lists that agree on the entries of every score are empty together. */
  lemma EmptyTogether(t: seq<Entry>, u: seq<Entry>)
    requires forall v :: WithScore(t, v) == WithScore(u, v)
    ensures t == [] <==> u == []
  {
    if u != [] {
      WithScoreHead(u);
      assert WithScore(t, u[0].score) != [];
    }
    if t != [] {
      WithScoreHead(t);
      assert WithScore(u, t[0].score) != [];
    }
  }

  /** Sorted lists that agree on the entries of every score start with the same entry. */
  lemma SameHead(t: seq<Entry>, u: seq<Entry>)
    requires t != [] && u != []
    requires SortedByScore(t) && SortedByScore(u)
    requires forall v :: WithScore(t, v) == WithScore(u, v)
    ensures t[0] == u[0]
  {
    WithScoreHead(t);
    WithScoreHead(u);
    assert WithScore(u, t[0].score) == WithScore(t, t[0].score);
    HeadScoreMax(u, t[0].score);
    assert WithScore(t, u[0].score) == WithScore(u, u[0].score);
    HeadScoreMax(t, u[0].score);
  }

  /** Dropping a common first entry keeps the lists agreeing on every score. */
  lemma TailsAgree(t: seq<Entry>, u: seq<Entry>)
    requires t != [] && u != [] && t[0] == u[0]
    requires forall v :: WithScore(t, v) == WithScore(u, v)
    ensures forall v :: WithScore(t[1..], v) == WithScore(u[1..], v)
  {
    forall v
      ensures WithScore(t[1..], v) == WithScore(u[1..], v)
    {
      if t[0].score == v {
        assert WithScore(t[1..], v) == WithScore(t, v)[1..];
        assert WithScore(u[1..], v) == WithScore(u, v)[1..];
      } else {
        assert WithScore(t[1..], v) == WithScore(t, v);
        assert WithScore(u[1..], v) == WithScore(u, v);
      }
    }
  }

  /**
   * Two lists sorted by descending score that agree on the entries of each
   * score, in order, are the same list.
   */
  lemma {:induction false} SortedUnique(t: seq<Entry>, u: seq<Entry>)
    requires SortedByScore(t) && SortedByScore(u)
    requires forall v :: WithScore(t, v) == WithScore(u, v)
    ensures t == u
    decreases |t|
  {
    EmptyTogether(t, u);
    if t != [] {
      SameHead(t, u);
      TailsAgree(t, u);
      SortedTail(t);
      SortedTail(u);
      SortedUnique(t[1..], u[1..]);
      assert t == [t[0]] + t[1..] && u == [u[0]] + u[1..];
    }
  }

  /**
   * The ranking is the one list sorted by descending score that keeps each
   * score's entries in input order, as Python's stable sort promises.
   */
  lemma RankingUnique(s: seq<Entry>, t: seq<Entry>)
    requires SortedByScore(t)
    requires forall v :: WithScore(t, v) == WithScore(s, v)
    ensures t == Ranking(s)
  {
    RankingSorted(s);
    RankingStableAll(s);
    SortedUnique(t, Ranking(s));
  }
}
