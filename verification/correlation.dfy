/**
 * The correlation pass of run.py (`get_top_github_data`): every ranked
 * analytics row is joined with the GitHub record its label points at.
 * The analytics query is replaced by its result, the row sequence, and the
 * authenticated GET-and-decode by an arbitrary function `fetch` from request
 * URL to decoded response.
 */
module Correlation {
  import opened Wrappers
  import opened GitHubUrl

  /** One analytics row as the reporting API returns it: its cells, the event label first. */
  type Row = seq<string>

  /** What the pass emits per row: the decoded response and the untouched row. */
  datatype Pair<R> = Pair(response: R, row: Row)

  /**
   * Reading the label of a row without cells raises IndexError, which ends
   * the whole pass; `index` is the position of that row.
   */
  datatype CorrelateError = EmptyRow(index: nat)

  /** The API request URL the pass builds for a label. */
  function RequestUrl(eventLabel: string): (u: string)
    ensures StartsWith(eventLabel, WebPrefix) ==> u == ApiBase + eventLabel[|WebPrefix|..]
    ensures !StartsWith(eventLabel, WebPrefix) ==> u == ApiBase + eventLabel
    ensures StartsWith(u, ApiBase)
  {
    ApiBase + Stripped(eventLabel)
  }

  /** The pair the pass emits for a row that has a label. */
  function PairFor<R>(row: Row, fetch: string -> R): Pair<R>
    requires |row| > 0
  {
    Pair(fetch(RequestUrl(row[0])), row)
  }

  /** Every row carries at least one cell. */
  predicate AllLabelled(rows: seq<Row>) {
    forall i :: 0 <= i < |rows| ==> |rows[i]| > 0
  }

  /**
   * The correlation pass as a function: one pair per row in input order,
   * or the first row whose label cannot be read.
   */
  function Correlate<R>(rows: seq<Row>, fetch: string -> R): (res: Result<seq<Pair<R>>, CorrelateError>)
    ensures res.Success? <==> AllLabelled(rows)
    ensures Correlates(rows, fetch, res)
    decreases |rows|
  {
    if |rows| == 0 then
      Success([])
    else if |rows[0]| == 0 then
      Failure(EmptyRow(0))
    else
      match Correlate(rows[1..], fetch)
      case Success(rest) => Success([PairFor(rows[0], fetch)] + rest)
      case Failure(EmptyRow(k)) => Failure(EmptyRow(k + 1))
  }

  /**
   * `res` is what the pass yields for `rows`: one pair per row in input order,
   * each holding the response for the row's request URL and the row itself,
   * or else the first row without a label.
   */
  ghost predicate Correlates<R>(rows: seq<Row>, fetch: string -> R, res: Result<seq<Pair<R>>, CorrelateError>) {
    match res
    case Success(pairs) =>
      && AllLabelled(rows)
      && |pairs| == |rows|
      && forall i :: 0 <= i < |rows| ==> pairs[i] == PairFor(rows[i], fetch)
    case Failure(EmptyRow(k)) =>
      && k < |rows| && |rows[k]| == 0
      && forall i :: 0 <= i < k ==> |rows[i]| > 0
  }

  /** At most one result satisfies the description, and `Correlate` computes it. */
  lemma CorrelatesUnique<R>(rows: seq<Row>, fetch: string -> R, res: Result<seq<Pair<R>>, CorrelateError>)
    requires Correlates(rows, fetch, res)
    ensures res == Correlate(rows, fetch)
  {
    var c := Correlate(rows, fetch);
    match res
    case Success(pairs) =>
      assert c.Success?;
      assert |c.value| == |pairs|;
      forall i | 0 <= i < |pairs|
        ensures c.value[i] == pairs[i]
      {
      }
      assert c.value == pairs;
    case Failure(EmptyRow(k)) =>
      assert c.Failure?;
      assert !(c.error.index < k);
      assert !(k < c.error.index);
  }

  /**
   * The loop of `get_top_github_data`, statement for statement: strip the
   * label, prefix the API base, fetch, append the pair.
   */
  method CorrelateRows<R>(rows: seq<Row>, fetch: string -> R) returns (res: Result<seq<Pair<R>>, CorrelateError>)
    ensures res.Success? <==> AllLabelled(rows)
    ensures res.Success? ==> |res.value| == |rows|
    ensures res.Success? ==>
      forall i :: 0 <= i < |rows| ==>
        res.value[i].row == rows[i] && res.value[i].response == fetch(ApiBase + Stripped(rows[i][0]))
    ensures res.Failure? ==>
      res.error.index < |rows| && |rows[res.error.index]| == 0
      && forall i :: 0 <= i < res.error.index ==> |rows[i]| > 0
    ensures res == Correlate(rows, fetch)
  {
    var gaGithub: seq<Pair<R>> := [];
    var i := 0;
    while i < |rows|
      invariant 0 <= i <= |rows|
      invariant |gaGithub| == i
      invariant forall k :: 0 <= k < i ==> |rows[k]| > 0
      invariant forall k :: 0 <= k < i ==>
        gaGithub[k].row == rows[k] && gaGithub[k].response == fetch(ApiBase + Stripped(rows[k][0]))
    {
      var link := rows[i];
      if |link| == 0 {
        res := Failure(EmptyRow(i));
        CorrelatesUnique(rows, fetch, res);
        return;
      }
      var strippedLink := Stripped(link[0]);
      var requestLink := ApiBase + strippedLink;
      var response := fetch(requestLink);
      gaGithub := gaGithub + [Pair(response, link)];
      i := i + 1;
    }
    res := Success(gaGithub);
    CorrelatesUnique(rows, fetch, res);
  }

  /** The second components of a pass's output, in order. */
  function RowsOf<R>(pairs: seq<Pair<R>>): seq<Row> {
    seq(|pairs|, i requires 0 <= i < |pairs| => pairs[i].row)
  }

  /**
   * Projecting the output onto its rows gives back the input exactly: no row
   * is dropped, duplicated, reordered or altered.
   */
  lemma CorrelateKeepsRows<R>(rows: seq<Row>, fetch: string -> R)
    requires AllLabelled(rows)
    ensures Correlate(rows, fetch).Success?
    ensures RowsOf(Correlate(rows, fetch).value) == rows
    ensures multiset(RowsOf(Correlate(rows, fetch).value)) == multiset(rows)
  {
    var kept := RowsOf(Correlate(rows, fetch).value);
    assert |kept| == |rows|;
    forall i | 0 <= i < |rows|
      ensures kept[i] == rows[i]
    {
    }
    assert kept == rows;
  }

  /** A failure in `a` is the failure of `a + b`, at the same position. */
  lemma AppendFailsInPrefix<R>(a: seq<Row>, b: seq<Row>, fetch: string -> R)
    requires Correlate(a, fetch).Failure?
    ensures Correlate(a + b, fetch) == Correlate(a, fetch)
  {
    var k := Correlate(a, fetch).error.index;
    var ab := a + b;
    assert ab[k] == a[k];
    assert forall i :: 0 <= i < k ==> ab[i] == a[i];
    CorrelatesUnique(ab, fetch, Failure(EmptyRow(k)));
  }

  /** After a fully labelled `a`, a failure in `b` is reported shifted by `|a|`. */
  lemma AppendFailsInSuffix<R>(a: seq<Row>, b: seq<Row>, fetch: string -> R)
    requires AllLabelled(a)
    requires Correlate(b, fetch).Failure?
    ensures Correlate(a + b, fetch) == Failure(EmptyRow(|a| + Correlate(b, fetch).error.index))
  {
    var k := Correlate(b, fetch).error.index;
    var ab := a + b;
    assert ab[|a| + k] == b[k];
    forall i | 0 <= i < |a| + k
      ensures |ab[i]| > 0
    {
      if i < |a| {
        assert ab[i] == a[i];
      } else {
        assert ab[i] == b[i - |a|];
      }
    }
    CorrelatesUnique(ab, fetch, Failure(EmptyRow(|a| + k)));
  }

  /** When both halves succeed, the output for `a + b` is the two outputs concatenated. */
  lemma AppendBothSucceed<R>(a: seq<Row>, b: seq<Row>, fetch: string -> R)
    requires AllLabelled(a) && AllLabelled(b)
    ensures Correlate(a + b, fetch) == Success(Correlate(a, fetch).value + Correlate(b, fetch).value)
  {
    var x, y := Correlate(a, fetch).value, Correlate(b, fetch).value;
    var ab, pairs := a + b, x + y;
    forall i | 0 <= i < |ab|
      ensures |ab[i]| > 0 && pairs[i] == PairFor(ab[i], fetch)
    {
      if i < |a| {
        assert ab[i] == a[i] && pairs[i] == x[i];
      } else {
        assert ab[i] == b[i - |a|] && pairs[i] == y[i - |a|];
      }
    }
    CorrelatesUnique(ab, fetch, Success(pairs));
  }

  /**
   * The pass distributes over concatenation of its input: correlating
   * `a + b` is correlating `a`, then `b`, with a failure in `b` reported at
   * its position in the whole sequence.
   */
  lemma CorrelateAppend<R>(a: seq<Row>, b: seq<Row>, fetch: string -> R)
    ensures Correlate(a, fetch).Failure? ==> Correlate(a + b, fetch) == Correlate(a, fetch)
    ensures Correlate(a, fetch).Success? && Correlate(b, fetch).Failure? ==>
      Correlate(a + b, fetch) == Failure(EmptyRow(|a| + Correlate(b, fetch).error.index))
    ensures Correlate(a, fetch).Success? && Correlate(b, fetch).Success? ==>
      Correlate(a + b, fetch) == Success(Correlate(a, fetch).value + Correlate(b, fetch).value)
  {
    if Correlate(a, fetch).Failure? {
      AppendFailsInPrefix(a, b, fetch);
    } else if Correlate(b, fetch).Failure? {
      AppendFailsInSuffix(a, b, fetch);
    } else {
      AppendBothSucceed(a, b, fetch);
    }
  }

  /**
   * The pass does not deduplicate: two rows whose labels normalise to the
   * same path (equal labels, or one with and one without the web prefix)
   * both appear, requested from the same URL, and so with the same response.
   */
  lemma NoDeduplication<R>(rows: seq<Row>, fetch: string -> R, i: nat, j: nat)
    requires AllLabelled(rows)
    requires i < j < |rows|
    requires Stripped(rows[i][0]) == Stripped(rows[j][0])
    ensures RequestUrl(rows[i][0]) == RequestUrl(rows[j][0])
    ensures Correlate(rows, fetch).Success?
    ensures |Correlate(rows, fetch).value| == |rows|
    ensures Correlate(rows, fetch).value[i].response == Correlate(rows, fetch).value[j].response
    ensures Correlate(rows, fetch).value[i].row == rows[i]
    ensures Correlate(rows, fetch).value[j].row == rows[j]
  {
  }

  /**
   * Each pair depends only on its own row: replacing the response source
   * changes nothing for rows whose request URL it answers the same way.
   */
  lemma ResponsesDependOnlyOnRequestUrl<R>(rows: seq<Row>, f: string -> R, g: string -> R)
    requires AllLabelled(rows)
    requires forall i :: 0 <= i < |rows| ==> f(RequestUrl(rows[i][0])) == g(RequestUrl(rows[i][0]))
    ensures Correlate(rows, f) == Correlate(rows, g)
  {
    var x := Correlate(rows, f).value;
    forall i | 0 <= i < |rows|
      ensures x[i] == PairFor(rows[i], g)
    {
    }
    CorrelatesUnique(rows, g, Success(x));
  }
}
