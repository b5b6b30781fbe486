/**
 * Concrete vectors taken from the repository's test fixture (the `full_issue`
 * record of testdata.py): the issue's web link, normalised and put behind
 * the API base, is the issue's API URL.
 */
module Fixture {
  import opened GitHubUrl
  import opened Correlation
  import opened Wrappers

  /** The fixture issue's `html_url`. */
  const IssueHtmlUrl: string := "https://github.com/codeforamerica/gotissues/issues/8"

  /** The fixture issue's `url`. */
  const IssueApiUrl: string := "https://api.github.com/repos/codeforamerica/gotissues/issues/8"

  /** The repository-relative path both URLs share. */
  const IssuePath: string := "codeforamerica/gotissues/issues/8"

  /** The fixture's web link is the web host followed by the issue path. */
  lemma HtmlUrlSplits()
    ensures IssueHtmlUrl == WebPrefix + IssuePath
  {
    assert |IssueHtmlUrl| == |WebPrefix| + |IssuePath|;
    forall i | 0 <= i < |IssueHtmlUrl|
      ensures IssueHtmlUrl[i] == (WebPrefix + IssuePath)[i]
    {
    }
  }

  /** The normaliser strips the fixture link down to its repository path. */
  lemma FixtureStripped()
    ensures Stripped(IssueHtmlUrl) == IssuePath
  {
    HtmlUrlSplits();
    StrippedUndoesPrefix(IssuePath);
  }

  /** The fixture's API URL is the API base followed by the issue path. */
  lemma ApiUrlSplits()
    ensures IssueApiUrl == ApiBase + IssuePath
  {
    assert |IssueApiUrl| == |ApiBase| + |IssuePath|;
    forall i | 0 <= i < |IssueApiUrl|
      ensures IssueApiUrl[i] == (ApiBase + IssuePath)[i]
    {
    }
  }

  /** The request URL built for the fixture link is the fixture's API URL. */
  lemma FixtureRequestUrl()
    ensures RequestUrl(IssueHtmlUrl) == IssueApiUrl
  {
    ApiUrlSplits();
    FixtureStripped();
  }

  /**
   * A ranked pass over two rows that both carry the fixture link (as an
   * analytics row of label and event count) fetches the fixture API URL
   * twice and keeps both rows, in order.
   */
  lemma FixturePass<R>(fetch: string -> R)
    ensures Correlate([[IssueHtmlUrl, "10"], [IssueHtmlUrl, "3"]], fetch)
         == Success([Pair(fetch(IssueApiUrl), [IssueHtmlUrl, "10"]),
                     Pair(fetch(IssueApiUrl), [IssueHtmlUrl, "3"])])
  {
    var rows: seq<Row> := [[IssueHtmlUrl, "10"], [IssueHtmlUrl, "3"]];
    FixtureRequestUrl();
    var expected := [Pair(fetch(IssueApiUrl), rows[0]), Pair(fetch(IssueApiUrl), rows[1])];
    CorrelatesUnique(rows, fetch, Success(expected));
  }
}
