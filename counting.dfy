/** Python's `Counter(responses)` as used to group replies: a table of
    (response, count) entries in first-occurrence order, one entry per
    distinct string, where strings are compared exactly (no case folding,
    no whitespace normalisation). */
module Counting {

  datatype Entry = Entry(response: string, count: nat)

  /** The distinct strings of `xs`. */
  function Elements(xs: seq<string>): set<string> {
    set x | x in xs
  }

  /** No string occurs twice in `xs`. */
  predicate Distinct(xs: seq<string>) {
    forall i, j :: 0 <= i < j < |xs| ==> xs[i] != xs[j]
  }

  /** The responses that have an entry in `t`. */
  function Keys(t: seq<Entry>): set<string> {
    if |t| == 0 then {} else {t[0].response} + Keys(t[1..])
  }

  /** The count `t` holds for `y`, or 0 if `y` has no entry. */
  function Lookup(t: seq<Entry>, y: string): nat {
    if |t| == 0 then 0 else if t[0].response == y then t[0].count else Lookup(t[1..], y)
  }

  /** The total of all counts in `t`. */
  function Sum(t: seq<Entry>): nat {
    if |t| == 0 then 0 else t[0].count + Sum(t[1..])
  }

  /** No response has two entries. */
  predicate UniqueKeys(t: seq<Entry>) {
    forall i, j :: 0 <= i < j < |t| ==> t[i].response != t[j].response
  }

  /** Every entry counts at least one occurrence. */
  predicate Positive(t: seq<Entry>) {
    forall i :: 0 <= i < |t| ==> t[i].count >= 1
  }

  /** Counting one more occurrence of `x`: its entry goes up by one, or a new
      entry with count 1 goes at the end. */
  function Bump(t: seq<Entry>, x: string): seq<Entry> {
    if |t| == 0 then [Entry(x, 1)]
    else if t[0].response == x then [Entry(x, t[0].count + 1)] + t[1..]
    else [t[0]] + Bump(t[1..], x)
  }

  /** `Counter(xs)`: the strings of `xs` counted left to right. */
  function Tally(xs: seq<string>): (r: seq<Entry>)
    ensures |r| <= |xs|
    ensures |xs| > 0 ==> |r| > 0
  {
    if |xs| == 0 then []
    else
      var t := Tally(xs[..|xs| - 1]);
      BumpLength(t, xs[|xs| - 1]);
      Bump(t, xs[|xs| - 1])
  }

  // ---------------------------------------------------------------------
  // Facts about entry tables

  lemma {:induction false} KeysMember(t: seq<Entry>, y: string)
    ensures y in Keys(t) <==> exists i :: 0 <= i < |t| && t[i].response == y
  {
    if |t| > 0 {
      KeysMember(t[1..], y);
      if y in Keys(t[1..]) {
        var i :| 0 <= i < |t[1..]| && t[1..][i].response == y;
        assert t[i + 1].response == y;
      }
      if exists i :: 0 <= i < |t| && t[i].response == y {
        var i :| 0 <= i < |t| && t[i].response == y;
        if i > 0 { assert t[1..][i - 1].response == y; }
      }
    }
  }

  /** A table with unique keys has exactly one entry per key. */
  lemma {:induction false} KeysCard(t: seq<Entry>)
    requires UniqueKeys(t)
    ensures |Keys(t)| == |t|
  {
    if |t| > 0 {
      assert UniqueKeys(t[1..]);
      KeysCard(t[1..]);
      KeysMember(t[1..], t[0].response);
    }
  }

  /** In a table with unique keys, looking up an entry's response finds that
      entry's count. */
  lemma {:induction false} LookupAt(t: seq<Entry>, i: nat)
    requires UniqueKeys(t) && i < |t|
    ensures Lookup(t, t[i].response) == t[i].count
  {
    if i > 0 {
      assert t[0].response != t[i].response;
      assert UniqueKeys(t[1..]);
      assert t[1..][i - 1] == t[i];
      LookupAt(t[1..], i - 1);
    }
  }

  // ---------------------------------------------------------------------
  // What one Bump does

  lemma {:induction false} BumpKeys(t: seq<Entry>, x: string)
    ensures Keys(Bump(t, x)) == Keys(t) + {x}
  {
    if |t| > 0 && t[0].response != x {
      BumpKeys(t[1..], x);
      assert ([t[0]] + Bump(t[1..], x))[1..] == Bump(t[1..], x);
    } else if |t| > 0 {
      assert ([Entry(x, t[0].count + 1)] + t[1..])[1..] == t[1..];
    }
  }

  lemma {:induction false} BumpLength(t: seq<Entry>, x: string)
    ensures |Bump(t, x)| == if x in Keys(t) then |t| else |t| + 1
  {
    if |t| > 0 && t[0].response != x { BumpLength(t[1..], x); }
  }

  lemma {:induction false} BumpSum(t: seq<Entry>, x: string)
    ensures Sum(Bump(t, x)) == Sum(t) + 1
  {
    if |t| > 0 && t[0].response != x {
      BumpSum(t[1..], x);
      assert ([t[0]] + Bump(t[1..], x))[1..] == Bump(t[1..], x);
    } else if |t| > 0 {
      assert ([Entry(x, t[0].count + 1)] + t[1..])[1..] == t[1..];
    } else {
      assert [Entry(x, 1)][1..] == [];
    }
  }

  lemma {:induction false} BumpLookup(t: seq<Entry>, x: string, y: string)
    ensures Lookup(Bump(t, x), y) == Lookup(t, y) + (if y == x then 1 else 0)
  {
    if |t| == 0 {
      assert [Entry(x, 1)][1..] == [];
    } else if t[0].response != x {
      BumpLookup(t[1..], x, y);
      assert ([t[0]] + Bump(t[1..], x))[1..] == Bump(t[1..], x);
    } else {
      assert ([Entry(x, t[0].count + 1)] + t[1..])[1..] == t[1..];
    }
  }

  lemma {:induction false} BumpWellFormed(t: seq<Entry>, x: string)
    requires UniqueKeys(t) && Positive(t)
    ensures UniqueKeys(Bump(t, x)) && Positive(Bump(t, x))
  {
    if |t| > 0 && t[0].response != x {
      var rest := Bump(t[1..], x);
      assert UniqueKeys(t[1..]) && Positive(t[1..]);
      BumpWellFormed(t[1..], x);
      BumpKeys(t[1..], x);
      var b := [t[0]] + rest;
      forall j | 1 <= j < |b| ensures b[0].response != b[j].response {
        assert b[j] == rest[j - 1];
        KeysMember(rest, b[j].response);
        KeysMember(t[1..], b[j].response);
        if b[j].response in Keys(t[1..]) {
          var k :| 0 <= k < |t[1..]| && t[1..][k].response == b[j].response;
          assert t[k + 1].response == b[j].response;
        }
      }
    }
  }

  // ---------------------------------------------------------------------
  // What the whole Tally computes

  lemma {:induction false} TallyWellFormed(xs: seq<string>)
    ensures UniqueKeys(Tally(xs)) && Positive(Tally(xs))
  {
    if |xs| > 0 {
      TallyWellFormed(xs[..|xs| - 1]);
      BumpWellFormed(Tally(xs[..|xs| - 1]), xs[|xs| - 1]);
    }
  }

  /** The counts add up to the number of responses. */
  lemma {:induction false} TallySum(xs: seq<string>)
    ensures Sum(Tally(xs)) == |xs|
  {
    if |xs| > 0 {
      TallySum(xs[..|xs| - 1]);
      BumpSum(Tally(xs[..|xs| - 1]), xs[|xs| - 1]);
    }
  }

  /** The keys are exactly the distinct responses. */
  lemma {:induction false} TallyKeys(xs: seq<string>)
    ensures Keys(Tally(xs)) == Elements(xs)
  {
    if |xs| > 0 {
      var init, last := xs[..|xs| - 1], xs[|xs| - 1];
      assert xs == init + [last];
      TallyKeys(init);
      BumpKeys(Tally(init), last);
      assert Elements(xs) == Elements(init) + {last};
    }
  }

  /** Every string's count is its number of occurrences. */
  lemma {:induction false} TallyLookup(xs: seq<string>, y: string)
    ensures Lookup(Tally(xs), y) == multiset(xs)[y]
  {
    if |xs| > 0 {
      var init, last := xs[..|xs| - 1], xs[|xs| - 1];
      assert xs == init + [last];
      TallyLookup(init, y);
      BumpLookup(Tally(init), last, y);
    }
  }

  /** Each entry of the table counts the occurrences of its response. */
  lemma TallyCounts(xs: seq<string>)
    ensures forall i :: 0 <= i < |Tally(xs)| ==>
      Tally(xs)[i].count == multiset(xs)[Tally(xs)[i].response]
  {
    var t := Tally(xs);
    TallyWellFormed(xs);
    forall i | 0 <= i < |t| ensures t[i].count == multiset(xs)[t[i].response] {
      LookupAt(t, i);
      TallyLookup(xs, t[i].response);
    }
  }

  /** The number of entries (`len(response_counts)`) is the number of distinct
      responses. */
  lemma UniqueCount(xs: seq<string>)
    ensures |Tally(xs)| == |Elements(xs)|
  {
    TallyWellFormed(xs);
    KeysCard(Tally(xs));
    TallyKeys(xs);
  }

  lemma {:induction false} TallyLengthStep(xs: seq<string>)
    requires |xs| > 0
    ensures |Tally(xs)| == |Tally(xs[..|xs| - 1])|
      + (if xs[|xs| - 1] in xs[..|xs| - 1] then 0 else 1)
  {
    var init, last := xs[..|xs| - 1], xs[|xs| - 1];
    BumpLength(Tally(init), last);
    TallyKeys(init);
  }

  /** Every response is its own group exactly when no two are equal. */
  lemma {:induction false} AllDistinctIff(xs: seq<string>)
    ensures |Tally(xs)| == |xs| <==> Distinct(xs)
  {
    if |xs| > 0 {
      var init, last := xs[..|xs| - 1], xs[|xs| - 1];
      AllDistinctIff(init);
      TallyLengthStep(xs);
      if Distinct(xs) {
        assert Distinct(init);
      }
      if |Tally(xs)| == |xs| {
        assert last !in init;
        forall i, j | 0 <= i < j < |xs| ensures xs[i] != xs[j] {
          if j == |xs| - 1 { assert xs[i] == init[i]; }
          else { assert xs[i] == init[i] && xs[j] == init[j]; }
        }
      }
    }
  }

  /** A single group holds everything exactly when all responses equal the
      first. */
  lemma AllSameIff(xs: seq<string>)
    requires |xs| >= 1
    ensures |Tally(xs)| == 1 <==> forall i :: 0 <= i < |xs| ==> xs[i] == xs[0]
  {
    UniqueCount(xs);
    if forall i :: 0 <= i < |xs| ==> xs[i] == xs[0] {
      assert Elements(xs) == {xs[0]};
    }
    if |Tally(xs)| == 1 {
      assert xs[0] in Elements(xs);
      forall i | 0 <= i < |xs| ensures xs[i] == xs[0] {
        assert xs[i] in Elements(xs);
        if xs[i] != xs[0] {
          assert {xs[0], xs[i]} <= Elements(xs);
          assert |{xs[0], xs[i]}| == 2;
          SubsetCard({xs[0], xs[i]}, Elements(xs));
        }
      }
    }
  }

  lemma SubsetCard(a: set<string>, b: set<string>)
    requires a <= b
    ensures |a| <= |b|
  {
    assert b == a + (b - a);
  }
}
