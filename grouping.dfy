/** Grouping by category and summing amounts: the `$group` stage of the
    server's aggregation and the client's `categoryTotals` reduce. */
module Grouping {
  import opened Seqs

  /** The two fields grouping looks at. */
  datatype Item<K> = Item(category: K, amount: int)

  /** One summary entry: `{ _id: category, total }`. */
  datatype CategoryTotal<K> = CategoryTotal(category: K, total: int)

  function TotalOf<K(==,!new)>(e: CategoryTotal<K>): int { e.total }

  /** Sum of all amounts. */
  function Total<K(==,!new)>(s: seq<Item<K>>): int {
    if s == [] then 0 else Total(s[..|s| - 1]) + s[|s| - 1].amount
  }

  /** Sum of the amounts of category c. */
  function SumCat<K(==,!new)>(s: seq<Item<K>>, c: K): int {
    if s == [] then 0
    else SumCat(s[..|s| - 1], c) + (if s[|s| - 1].category == c then s[|s| - 1].amount else 0)
  }

  function Categories<K(==,!new)>(s: seq<Item<K>>): (r: seq<K>)
    ensures |r| == |s| && forall i :: 0 <= i < |s| ==> r[i] == s[i].category
  {
    seq(|s|, i requires 0 <= i < |s| => s[i].category)
  }

  /** Sum over the categories cs of each category's sum. */
  function SumOver<K(==,!new)>(cs: seq<K>, s: seq<Item<K>>): int {
    if cs == [] then 0 else SumCat(s, cs[0]) + SumOver(cs[1..], s)
  }

  /** One entry per category of cs, in that order. */
  function GroupOf<K(==,!new)>(cs: seq<K>, s: seq<Item<K>>): (g: seq<CategoryTotal<K>>)
    ensures |g| == |cs|
    ensures forall i :: 0 <= i < |cs| ==> g[i] == CategoryTotal(cs[i], SumCat(s, cs[i]))
  {
    if cs == [] then [] else [CategoryTotal(cs[0], SumCat(s, cs[0]))] + GroupOf(cs[1..], s)
  }

  /** What x contributes to the category sums over cs. */
  function Hits<K(==,!new)>(cs: seq<K>, x: Item<K>): int {
    if cs == [] then 0 else (if x.category == cs[0] then x.amount else 0) + Hits(cs[1..], x)
  }

  lemma {:induction false} SumOverEmpty<K(!new)>(cs: seq<K>)
    ensures SumOver(cs, []) == 0
  {
    if cs != [] {
      SumOverEmpty(cs[1..]);
    }
  }

  lemma {:induction false} SumOverSnoc<K(!new)>(cs: seq<K>, t: seq<Item<K>>, x: Item<K>)
    ensures SumOver(cs, t + [x]) == SumOver(cs, t) + Hits(cs, x)
  {
    if cs != [] {
      SumOverSnoc(cs[1..], t, x);
      assert (t + [x])[..|t + [x]| - 1] == t;
    }
  }

  lemma {:induction false} HitsOnce<K(!new)>(cs: seq<K>, x: Item<K>)
    requires NoDuplicates(cs) && x.category in cs
    ensures Hits(cs, x) == x.amount
  {
    if cs[0] == x.category {
      assert x.category !in cs[1..] by {
        forall j | 0 <= j < |cs[1..]| ensures cs[1..][j] != x.category {
          assert cs[1..][j] == cs[j + 1];
        }
      }
      HitsNone(cs[1..], x);
    } else {
      HitsOnce(cs[1..], x);
    }
  }

  lemma {:induction false} HitsNone<K(!new)>(cs: seq<K>, x: Item<K>)
    requires x.category !in cs
    ensures Hits(cs, x) == 0
  {
    if cs != [] {
      HitsNone(cs[1..], x);
    }
  }

  /** Summing the category sums over a list that names every category once
      gives the overall sum: no amount is lost or counted twice. */
  lemma {:induction false} SumOverDistinct<K(!new)>(cs: seq<K>, s: seq<Item<K>>)
    requires NoDuplicates(cs)
    requires forall i :: 0 <= i < |s| ==> s[i].category in cs
    ensures SumOver(cs, s) == Total(s)
  {
    if s == [] {
      SumOverEmpty(cs);
    } else {
      var t, x := s[..|s| - 1], s[|s| - 1];
      assert s == t + [x];
      SumOverDistinct(cs, t);
      SumOverSnoc(cs, t, x);
      HitsOnce(cs, x);
    }
  }

  lemma {:induction false} GroupSum<K(!new)>(cs: seq<K>, s: seq<Item<K>>)
    ensures SumBy(TotalOf, GroupOf(cs, s)) == SumOver(cs, s)
  {
    if cs != [] {
      GroupSum(cs[1..], s);
      assert GroupOf(cs, s)[1..] == GroupOf(cs[1..], s);
    }
  }

  /** Group by category, sum, and order by non-increasing total. Ties keep
      the order in which categories first appear. */
  function Summarize<K(==,!new)>(s: seq<Item<K>>): seq<CategoryTotal<K>> {
    SortDesc(TotalOf, GroupOf(Distinct(Categories(s)), s))
  }

  /** The summary has one entry per distinct category, carrying that
      category's sum; entries are ordered by non-increasing total; and the
      totals add up to the overall sum. */
  lemma SummarizeCorrect<K(!new)>(s: seq<Item<K>>)
    ensures forall e :: e in Summarize(s) ==> e.category in Categories(s) && e.total == SumCat(s, e.category)
    ensures forall c :: c in Categories(s) ==> CategoryTotal(c, SumCat(s, c)) in Summarize(s)
    ensures forall i, j :: 0 <= i < j < |Summarize(s)| ==> Summarize(s)[i].category != Summarize(s)[j].category
    ensures SortedDesc(TotalOf, Summarize(s))
    ensures |Summarize(s)| == |Distinct(Categories(s))|
    ensures SumBy(TotalOf, Summarize(s)) == Total(s)
  {
    var cs := Distinct(Categories(s));
    var g := GroupOf(cs, s);
    var r := Summarize(s);
    forall e | e in r ensures e.category in Categories(s) && e.total == SumCat(s, e.category) {
      assert e in g;
    }
    forall c | c in Categories(s) ensures CategoryTotal(c, SumCat(s, c)) in r {
      var i :| 0 <= i < |cs| && cs[i] == c;
      assert g[i] == CategoryTotal(c, SumCat(s, c));
    }
    assert NoDuplicates(g) by {
      forall i, j | 0 <= i < j < |g| ensures g[i] != g[j] {
        assert g[i].category == cs[i] && g[j].category == cs[j];
      }
    }
    SortDescNoDuplicates(TotalOf, g);
    forall i, j | 0 <= i < j < |r| ensures r[i].category != r[j].category {
      assert r[i] in r && r[j] in r;
      assert r[i] != r[j];
    }
    SortDescSum(TotalOf, TotalOf, g);
    GroupSum(cs, s);
    forall i | 0 <= i < |s| ensures s[i].category in cs {
      assert Categories(s)[i] == s[i].category;
    }
    SumOverDistinct(cs, s);
  }
}
