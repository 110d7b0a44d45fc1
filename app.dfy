/** What `main()` does once the button is pressed: check the question,
    collect the replies, and summarise them into the score, the chart rows
    and the full-results rows. Widgets, layout and chart drawing are not
    modelled; their inputs arrive as parameters. */
module App {
  import opened Counting
  import opened Ranking
  import opened Metrics
  import Client

  /** The slider bounds for the number of runs. */
  const MinCalls: int := 1
  const MaxCalls: int := 50

  /** What a press of the button leads to. */
  datatype Action = Idle | WarnEmptyQuestion | Sample

  /** `if submit_button and question: ... elif submit_button: warning`. */
  function Dispatch(submitted: bool, question: string): (a: Action)
    ensures a == Sample <==> submitted && question != ""
    ensures a == WarnEmptyQuestion <==> submitted && question == ""
    ensures a == Idle <==> !submitted
  {
    if submitted && question != "" then Sample
    else if submitted then WarnEmptyQuestion
    else Idle
  }

  /** The summary of one run. `table` holds the `Response` and `Count`
      columns shared by the chart and the full-results view, sorted by count;
      `display` is the chart's `Display` column and `percentage` the
      results view's `Percentage` column, row for row. */
  datatype Summary = Summary(
    uniqueCount: nat,
    consistency: real,
    table: seq<Entry>,
    display: seq<string>,
    percentage: seq<real>)

  /** The `Display` column. */
  function Labels(t: seq<Entry>): (r: seq<string>)
    ensures |r| == |t|
    ensures forall i :: 0 <= i < |t| ==> r[i] == Label(t[i].response)
  {
    seq(|t|, i requires 0 <= i < |t| => Label(t[i].response))
  }

  /** Each row counts the occurrences of its response, at least one. */
  predicate CountsOccurrences(t: seq<Entry>, responses: seq<string>) {
    forall i :: 0 <= i < |t| ==> t[i].count == multiset(responses)[t[i].response] >= 1
  }

  /** The table, sorted by count, for a run's replies. */
  function Ranked(responses: seq<string>): (r: seq<Entry>)
    ensures |r| == |Elements(responses)|
  {
    UniqueCount(responses);
    SortByCount(Tally(responses))
  }

  lemma RankedCounts(responses: seq<string>)
    ensures CountsOccurrences(Ranked(responses), responses)
  {
    var counts := Tally(responses);
    var t := SortByCount(counts);
    TallyWellFormed(responses);
    TallyCounts(responses);
    SortPermutes(counts);
    forall i | 0 <= i < |t| ensures t[i].count == multiset(responses)[t[i].response] >= 1 {
      assert t[i] in multiset(counts);
      var k :| 0 <= k < |counts| && counts[k] == t[i];
    }
  }

  lemma RankedShape(responses: seq<string>)
    ensures Keys(Ranked(responses)) == Elements(responses)
    ensures UniqueKeys(Ranked(responses))
    ensures CountDescending(Ranked(responses))
    ensures Sum(Ranked(responses)) == |responses|
    ensures |Ranked(responses)| == |Elements(responses)|
  {
    var counts := Tally(responses);
    TallyWellFormed(responses);
    TallyKeys(responses);
    TallySum(responses);
    UniqueCount(responses);
    SortPermutes(counts);
    SortDescending(counts);
    SortKeeps(counts);
  }

  /** Grouping, scoring, sorting, labelling and percentages for the replies
      of one run (app.py lines 137 to 195). */
  function Summarize(responses: seq<string>, numCalls: nat): (s: Summary)
    requires numCalls >= 1
    // one row per distinct reply, counting its exact occurrences
    ensures s.uniqueCount == |s.table| == |Elements(responses)|
    ensures Keys(s.table) == Elements(responses) && UniqueKeys(s.table)
    ensures CountsOccurrences(s.table, responses)
    // largest groups first
    ensures CountDescending(s.table)
    // the other two columns, row for row
    ensures s.display == Labels(s.table)
    ensures s.percentage == Percentages(s.table, numCalls)
    // the score
    ensures s.consistency == Consistency(numCalls, s.uniqueCount)
    // over a full run: the bounds, and percentages that add up to 100
    ensures |responses| == numCalls ==>
      && 1 <= s.uniqueCount <= numCalls
      && 100.0 / numCalls as real <= s.consistency <= 100.0
      && RealSum(s.percentage) == 100.0
  {
    var t := Ranked(responses);
    RankedCounts(responses);
    RankedShape(responses);
    FullRunFacts(responses, numCalls);
    Summary(|t|, Consistency(numCalls, |t|), t, Labels(t), Percentages(t, numCalls))
  }

  lemma FullRunFacts(responses: seq<string>, numCalls: nat)
    requires numCalls >= 1
    ensures |responses| == numCalls ==> 1 <= |Ranked(responses)| <= numCalls
    ensures |responses| == numCalls ==>
      100.0 / numCalls as real <= Consistency(numCalls, |Ranked(responses)|) <= 100.0
    ensures |responses| == numCalls ==>
      RealSum(Percentages(Ranked(responses), numCalls)) == 100.0
  {
    if |responses| == numCalls {
      RankedShape(responses);
      UniqueCount(responses);
      ConsistencyBounds(numCalls, |Ranked(responses)|);
      PercentagesSumTo100(Ranked(responses), numCalls);
    }
  }

  /** When every reply is the same, the run scores 100. */
  lemma IdenticalRepliesScore100(responses: seq<string>)
    requires |responses| >= 1
    requires forall i :: 0 <= i < |responses| ==> responses[i] == responses[0]
    ensures Summarize(responses, |responses|).uniqueCount == 1
    ensures Summarize(responses, |responses|).consistency == 100.0
  {
    AllSameIff(responses);
    UniqueCount(responses);
  }

  /** When no two replies agree, there are `num_calls` groups and a run of
      more than one call scores `100 / num_calls`. */
  lemma DistinctRepliesScoreFloor(responses: seq<string>)
    requires |responses| > 1 && Distinct(responses)
    ensures Summarize(responses, |responses|).uniqueCount == |responses|
    ensures Summarize(responses, |responses|).consistency == 100.0 / |responses| as real
  {
    AllDistinctIff(responses);
    UniqueCount(responses);
  }

  /** A four-call run: Rex, Max, Rex, Buddy give three
      groups, Rex counted twice and listed first, Max and Buddy once each in
      either order, and a score of 50. */
  lemma FourCallExample()
    ensures var s := Summarize(["Rex", "Max", "Rex", "Buddy"], 4);
      && s.uniqueCount == 3
      && s.consistency == 50.0
      && s.table[0] == Entry("Rex", 2)
      && multiset(s.table[1..]) == multiset{Entry("Max", 1), Entry("Buddy", 1)}
  {
    var xs := ["Rex", "Max", "Rex", "Buddy"];
    var one, two := [Entry("Rex", 1)], [Entry("Rex", 1), Entry("Max", 1)];
    var three := [Entry("Rex", 2), Entry("Max", 1)];
    var counts := [Entry("Rex", 2), Entry("Max", 1), Entry("Buddy", 1)];
    assert ["Rex"][..0] == [];
    assert Tally(["Rex"]) == one;
    assert ["Rex", "Max"][..1] == ["Rex"];
    assert Bump(one, "Max") == [one[0]] + Bump(one[1..], "Max");
    assert Tally(["Rex", "Max"]) == two;
    assert ["Rex", "Max", "Rex"][..2] == ["Rex", "Max"];
    assert two[1..] == [Entry("Max", 1)];
    assert Tally(["Rex", "Max", "Rex"]) == three;
    assert xs[..3] == ["Rex", "Max", "Rex"];
    assert three[1..] == [Entry("Max", 1)] && three[1..][1..] == [];
    assert Bump(three[1..], "Buddy") == [Entry("Max", 1), Entry("Buddy", 1)];
    assert Tally(xs) == counts;
    assert SortByCount(counts[2..]) == [Entry("Buddy", 1)];
    assert SortByCount(counts[1..]) == [Entry("Max", 1), Entry("Buddy", 1)];
    assert SortByCount(counts) == counts;
    assert counts[1..] == [Entry("Max", 1), Entry("Buddy", 1)];
    assert Consistency(4, 3) == 50.0;
  }

  /** What the results area ends up showing. */
  datatype Outcome =
    | NothingShown
    | Warning
    | Shown(responses: seq<string>, summary: Summary)

  /** One press of the button (or none), from the inputs the widgets hold. */
  method Session(
    wrapper: Client.ClientWrapper, submitted: bool, question: string,
    temperature: real, numCalls: int, deploymentName: string, systemPrompt: string)
    returns (outcome: Outcome)
    requires MinCalls <= numCalls <= MaxCalls
    modifies wrapper.client
    ensures Dispatch(submitted, question) == Idle ==>
      outcome == NothingShown && wrapper.client.requests == old(wrapper.client.requests)
    ensures Dispatch(submitted, question) == WarnEmptyQuestion ==>
      outcome == Warning && wrapper.client.requests == old(wrapper.client.requests)
    ensures Dispatch(submitted, question) == Sample ==>
      && outcome.Shown?
      && outcome.responses == Client.Collected(wrapper.client.reply, |old(wrapper.client.requests)|,
           Client.BuildRequest(question, temperature, deploymentName, systemPrompt), numCalls)
      && wrapper.client.requests == old(wrapper.client.requests)
           + Client.Repeat(Client.BuildRequest(question, temperature, deploymentName, systemPrompt), numCalls)
      && outcome.summary == Summarize(outcome.responses, numCalls)
      && 1 <= outcome.summary.uniqueCount <= numCalls
      && RealSum(outcome.summary.percentage) == 100.0
  {
    var action := Dispatch(submitted, question);
    if action == Sample {
      var responses := wrapper.CallLlm(question, temperature, numCalls, deploymentName, systemPrompt);
      outcome := Shown(responses, Summarize(responses, numCalls));
    } else if action == WarnEmptyQuestion {
      outcome := Warning;
    } else {
      outcome := NothingShown;
    }
  }
}
