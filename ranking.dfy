/** The (response, count) table sorted by count, largest first, as
    `DataFrame.sort_values('Count', ascending=False)` orders it. That sort is
    not stable, so nothing is promised about the order of equal counts; this
    model fixes one order (insertion sort) and proves only what every
    count-descending order shares. */
module Ranking {
  import opened Counting

  /** Counts never increase from one row to a later one. */
  predicate CountDescending(s: seq<Entry>) {
    forall i, j :: 0 <= i < j < |s| ==> s[i].count >= s[j].count
  }

  /** Place `e` into a count-descending table, before the first row whose
      count is not larger. */
  function Insert(e: Entry, s: seq<Entry>): seq<Entry> {
    if |s| == 0 then [e]
    else if s[0].count <= e.count then [e] + s
    else [s[0]] + Insert(e, s[1..])
  }

  function SortByCount(t: seq<Entry>): (r: seq<Entry>)
    ensures |r| == |t|
  {
    if |t| == 0 then []
    else
      var rest := SortByCount(t[1..]);
      InsertFacts(t[0], rest);
      Insert(t[0], rest)
  }

  lemma {:induction false} InsertFacts(e: Entry, s: seq<Entry>)
    ensures multiset(Insert(e, s)) == multiset(s) + multiset{e}
    ensures |Insert(e, s)| == |s| + 1
    ensures Insert(e, s)[0] == e || (|s| > 0 && Insert(e, s)[0] == s[0])
  {
    if |s| > 0 && s[0].count > e.count {
      InsertFacts(e, s[1..]);
      assert s == [s[0]] + s[1..];
    }
  }

  lemma {:induction false} InsertDescending(e: Entry, s: seq<Entry>)
    requires CountDescending(s)
    ensures CountDescending(Insert(e, s))
  {
    if |s| > 0 && s[0].count > e.count {
      var rest := Insert(e, s[1..]);
      InsertDescending(e, s[1..]);
      InsertFacts(e, s[1..]);
      var r := [s[0]] + rest;
      forall j | 1 <= j < |r| ensures r[0].count >= r[j].count {
        assert rest[j - 1] in multiset(rest);
        assert rest[j - 1] in multiset(s[1..]) + multiset{e};
        if rest[j - 1] != e {
          assert rest[j - 1] in s[1..];
          var k :| 0 <= k < |s[1..]| && s[1..][k] == rest[j - 1];
          assert s[k + 1] == rest[j - 1];
        }
      }
    }
  }

  lemma {:induction false} InsertKeys(e: Entry, s: seq<Entry>)
    ensures Keys(Insert(e, s)) == Keys(s) + {e.response}
  {
    if |s| > 0 && s[0].count > e.count {
      InsertKeys(e, s[1..]);
      assert ([s[0]] + Insert(e, s[1..]))[1..] == Insert(e, s[1..]);
    } else if |s| > 0 {
      assert ([e] + s)[1..] == s;
    } else {
      assert [e][1..] == [];
    }
  }

  lemma {:induction false} InsertSum(e: Entry, s: seq<Entry>)
    ensures Sum(Insert(e, s)) == e.count + Sum(s)
  {
    if |s| > 0 && s[0].count > e.count {
      InsertSum(e, s[1..]);
      assert ([s[0]] + Insert(e, s[1..]))[1..] == Insert(e, s[1..]);
    } else if |s| > 0 {
      assert ([e] + s)[1..] == s;
    } else {
      assert [e][1..] == [];
    }
  }

  lemma {:induction false} InsertUnique(e: Entry, s: seq<Entry>)
    requires UniqueKeys(s) && e.response !in Keys(s)
    ensures UniqueKeys(Insert(e, s))
  {
    var r := Insert(e, s);
    if |s| > 0 && s[0].count > e.count {
      var rest := Insert(e, s[1..]);
      assert UniqueKeys(s[1..]);
      assert Keys(s) == {s[0].response} + Keys(s[1..]);
      InsertUnique(e, s[1..]);
      InsertKeys(e, s[1..]);
      forall j | 1 <= j < |r| ensures r[0].response != r[j].response {
        assert r[j] == rest[j - 1];
        KeysMember(rest, r[j].response);
        KeysMember(s[1..], r[j].response);
        if r[j].response in Keys(s[1..]) {
          var k :| 0 <= k < |s[1..]| && s[1..][k].response == r[j].response;
          assert s[k + 1].response == r[j].response;
        }
      }
    } else {
      KeysMember(s, e.response);
      forall j | 1 <= j < |r| ensures r[0].response != r[j].response {
        assert r[j] == s[j - 1];
      }
    }
  }

  /** The sorted table is a permutation of the table. */
  lemma {:induction false} SortPermutes(t: seq<Entry>)
    ensures multiset(SortByCount(t)) == multiset(t)
    ensures |SortByCount(t)| == |t|
  {
    if |t| > 0 {
      SortPermutes(t[1..]);
      InsertFacts(t[0], SortByCount(t[1..]));
      assert t == [t[0]] + t[1..];
    }
  }

  /** The sorted table lists counts largest first. */
  lemma {:induction false} SortDescending(t: seq<Entry>)
    ensures CountDescending(SortByCount(t))
  {
    if |t| > 0 {
      SortDescending(t[1..]);
      InsertDescending(t[0], SortByCount(t[1..]));
    }
  }

  /** Sorting keeps the keys, their uniqueness and the total. */
  lemma {:induction false} SortKeeps(t: seq<Entry>)
    ensures Keys(SortByCount(t)) == Keys(t)
    ensures Sum(SortByCount(t)) == Sum(t)
    ensures UniqueKeys(t) ==> UniqueKeys(SortByCount(t))
  {
    if |t| > 0 {
      SortKeeps(t[1..]);
      InsertKeys(t[0], SortByCount(t[1..]));
      InsertSum(t[0], SortByCount(t[1..]));
      if UniqueKeys(t) {
        assert UniqueKeys(t[1..]);
        KeysMember(t[1..], t[0].response);
        InsertUnique(t[0], SortByCount(t[1..]));
      }
    }
  }
}
