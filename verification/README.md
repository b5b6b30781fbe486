# gotissues correlation core in Dafny

gotissues joins Google Analytics click events on "civic issue" links with
the GitHub records of those issues. This project models the two pure parts
of that join in `run.py`:

- the **GitHub link normaliser** `get_stripped_url`. It drops a leading
  `https://github.com/` (19 characters) from an event label and passes any
  other label through unchanged (`github_url.dfy`, module `GitHubUrl`);
- the **correlation pass** `get_top_github_data`. For every ranked analytics
  row it builds `https://api.github.com/repos/` + the normalised label,
  fetches and decodes that URL, and appends the pair (response, row) in input
  order (`correlation.dfy`, module `Correlation`).

The analytics query becomes its result, a sequence of rows. A row is the
sequence of its string cells, with the event label first. The authenticated
GitHub GET followed by `.json()` becomes a function parameter `fetch` from
request URL to a response of arbitrary type. The pass is given twice: as the
recursive function `Correlate`, and as the method `CorrelateRows`, which
follows the source loop statement by statement and is proved equal to it.
Reading `link[0]` from a row with no cells raises `IndexError` and ends the
whole pass. The model returns `Failure(EmptyRow(i))` for the first such row.
`fixture.dfy` (module `Fixture`) checks the fixture issue of `testdata.py`
against both operations. `wrappers.dfy` holds the `Result` type.

The code in `run.py` has no status check, no skipping and no deduplication:
every row yields exactly one pair, whatever the response says.

## Model

| member | source | states |
|---|---|---|
| GitHubUrl.WebPrefixLength | run.py:149-150 | the literal 19 that the slice drops is exactly the length of the prefix that was tested |
| GitHubUrl.Stripped | run.py:147-151 | a label with the web prefix loses exactly that prefix (prefix + result rebuilds the label); any other label is returned unchanged; the result is always a suffix of the label; it is strictly shorter exactly when the prefix matched, and then by 19 characters |
| GitHubUrl.StrippedUndoesPrefix | run.py:149-150 | normalising the web prefix followed by any path gives back that path |
| GitHubUrl.StrippedCharacterised | run.py:147-151 | independent description, both directions: r is the result for url exactly when url is the web prefix followed by r, or url lacks the prefix and r equals url |
| GitHubUrl.StrippedTwiceIff | run.py:147-151 | normalising twice equals normalising once exactly when the first result does not itself start with the web prefix, so the normaliser is not idempotent in general |
| GitHubUrl.StripsOnlyOnce | run.py:149-150 | a doubled prefix loses only its first copy, and a second application changes the result again |
| GitHubUrl.PlainHttpPassesThrough | run.py:149-151 | the prefix test is literal and case-sensitive: an `http://github.com/` link and an upper-case `HTTPS://GITHUB.COM/` link are passed through unchanged |
| Correlation.RequestUrl | run.py:157-161 | the request URL always starts with the API base; for a web link it is the API base followed by the link minus the web prefix, and for any other label it is the API base followed by the whole label |
| Correlation.Correlate | run.py:153-167 | succeeds exactly when every row has a label; on success, one pair per row in input order, each holding the fetched response for that row's request URL and the unmodified row; on failure, the first row with no cells |
| Correlation.CorrelatesUnique | run.py:159-166 | the description of the pass's output determines it: any result that meets it is the one Correlate computes |
| Correlation.CorrelateRows | run.py:155-167 | the source loop (strip, prefix the API base, fetch, append) returns one pair per row with the response for the row's request URL and the row itself, or the first empty row, and agrees with Correlate on every input |
| Correlation.CorrelateKeepsRows | run.py:159-166 | taking the second component of every output pair gives back the input rows exactly, so no row is dropped, duplicated, reordered or altered (also as multisets) |
| Correlation.CorrelateAppend | run.py:159-166 | the pass distributes over concatenation of its input: a failure in the first part is the overall failure; a failure in the second part is reported shifted by the first part's length; otherwise the outputs concatenate |
| Correlation.NoDeduplication | run.py:159-166 | two rows whose labels normalise to the same path both stay in the output, at their own positions with their own rows; both are fetched from the same request URL, and (with `fetch` a function of the URL) carry the same response |
| Correlation.ResponsesDependOnlyOnRequestUrl | run.py:160-162 | each pair depends only on the response for its own request URL: two fetch functions that agree on the rows' request URLs give the same output |
| Fixture.HtmlUrlSplits | testdata.py:8 | the fixture's `html_url` is the web prefix followed by the issue path `codeforamerica/gotissues/issues/8` |
| Fixture.ApiUrlSplits | testdata.py:4 | the fixture's `url` is the API base followed by the same issue path |
| Fixture.FixtureStripped | run.py:147-151 | the normaliser maps the fixture's `html_url` to `codeforamerica/gotissues/issues/8` |
| Fixture.FixtureRequestUrl | run.py:157-161 | the request URL built from the fixture's `html_url` is exactly the fixture's `url` |
| Fixture.FixturePass | run.py:153-167 | a pass over two analytics rows that carry the fixture link fetches the fixture's API URL for each and keeps both rows, in order |

## Left out

- The Google Analytics queries (`get_total_clicks`, `get_total_page_views`, `get_top_clicked_issues`, `get_least_clicked_issues`, `get_most_recent_clicked_issue`, `get_top_city_clicks`, `get_all_the_issues`) are remote calls that only index the returned rows. Top-N, bottom-N and most-recent ordering is done by the analytics server. The correlation pass takes the rows as its input instead.
- `get_percentage_of_views_with_clicks` is left out. It is floating-point division followed by `int()` truncation, and it raises on zero page views. Float rounding keeps it from being exactly `floor(100 * clicks / views)`: 0.29 * 100 is 28.999999999999996 in IEEE double arithmetic.
- Credential and session setup (`login_to_google_analytics`, the environment variables, `github_auth`) and the HTTP client `get_github_auth` are I/O and foreign libraries. The GET-and-decode is the `fetch` parameter.
- Correlation.Correlate does not model a failing fetch. `fetch` is total, so transport errors and bodies that `.json()` cannot decode, which raise in the source, are not represented. An error body that does decode, such as GitHub's 404 message, is an ordinary response, which is what the source does with it.
- Correlation.NoDeduplication: `fetch` is modelled as a function of the request URL alone, so repeated requests for one URL within a pass answer the same. The source issues a separate GET per row (run.py:162), and two such calls can answer differently (a rate-limit body on the second, or an issue edited in between); only the shared request URL is guaranteed by the source.
- The Flask routes and template rendering (`index`, `test`, `app.run`) are presentation.
- `trim_github_issues`, `write_issue_to_db` and `db_cursor` are called from `tests.py`. They are defined in `clock.py`, which is not part of this model. The field projection, upsert, `views` and `view_sources` behaviour therefore has no modelled implementation.
- Per-row failure markers and concurrency-safe upserts do not exist in the modelled code, so they are not modelled.
