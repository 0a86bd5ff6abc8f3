# A verified model of the GitHub search command line

The repository is a small command-line client for the GitHub v3 search
API. There are two click front ends with the same functions,
`src/github_cli.py` and `github_cli.py`, and an older front end,
`gh_find.py`. A command builds a query URL from an endpoint, a query and
optional `--sort`, `--order` and `--count` options. It GETs the URL and
prints the reply. An envelope reply gives two summary lines and then one
block per item. An item's block is a separator line followed by the
item's fields that are in a fixed field set.

This project models three parts and proves what they guarantee:

- **URL building.** It covers `process_query_url`, the `gh_list` URL and
  the URLs composed inline by the commands of `gh_find.py`. The module is
  `QueryBuilder`, with a few gh_find-only pieces in `GhFind`.
  - Strings are modelled exactly as the code builds them. Sort and order
    are appended as bare tokens (`&stars&desc`). The `gh_list` URL gets a
    second `?` when a sort is given.
  - Each URL is compared with an independent reference form. `AmpParams`
    joins a token list with `&`. The URL is split back into its
    parameters (`Split`) and the mentions of `per_page` are counted
    (`Occurrences`).
- **The field projector.** This is `print_keeper` and `print_item`, in
  `Projection`, `SrcGithubCli` and `GithubCli`. An item is the ordered
  sequence of its key/value pairs, and the output is the sequence of
  echoed lines.
  - The loops are methods proved against the functions `Kept` (the
    field filter), `PairLines` and `Block`.
  - Lemmas about those functions state the filter's meaning: membership,
    order, composition and the short set against the long set.
- **The rendering of a reply.** This is the part of `search_github`
  after the HTTP call.
  - The parsed reply is a `Json.Reply`: an OK flag and a body. The body
    is an envelope (total, incomplete flag, items), a bare list, or
    anything else.
  - In the two click front ends the methods produce the printed lines,
    and a failed reply raises. In `gh_find.py` the method returns the
    envelope's items.

Modules:
- `Wrappers`: `Option`, `Result`.
- `Text`: decimal rendering of `{count}`, substring counting, `str.split`.
- `Json`: the values, items and replies.
- `Projection`: the rendering shared by the two click front ends.
- `QueryBuilder`: `process_query_url`, the endpoints, the choices and
  the `gh_list` URL. All of these are identical in both click front
  ends.
- `SrcGithubCli`, `GithubCli` and `GhFind`: one module per front end.

In the code, an absent option (`None`) and an empty string are both falsy
and are both skipped. The model passes sort and order as strings, with
`""` for either. `--sort`/`--order` choices are the datatypes `SortKey`
and `Order`. The `IntRange(1, 100)` of `--count` is the precondition
`1 <= count <= 100`.

Notes on what the code does, which the model follows:
- The code appends bare tokens, not `sort=`/`order=` parameters, although
  the curl comment at src/github_cli.py:13 writes `sort=stars&order=desc`.
- `gh_list` produces two `?` (src/github_cli.py:244-246).
- A non-OK reply calls `raise_for_status()`, which raises before any
  error line is echoed (src/github_cli.py:157-158).
- Every item block starts with the 20-character `=` separator
  (src/github_cli.py:100), before the item's field lines.
- `per_page` occurs exactly once only when the query and tokens do not
  contain it themselves. The URLs of `gh_find.py` carry no `per_page`
  at all.

## Model

| member | source | states |
|---|---|---|
| QueryBuilder.ProcessQueryUrl | src/github_cli.py:115-127 | rejects exactly an empty URL or empty query, with the missing-URL-or-query message; otherwise yields the URL, the query and `&`-joined page size, sort, order (each only if given), in that order |
| QueryBuilder.AmpParamsGiven | github_cli.py:128-134 | the four cases of the sort/order suffix, sort always before order |
| QueryBuilder.Given | src/github_cli.py:121-126 | the tokens appended are exactly the non-empty ones among sort and order, sort first: `[sort, order]`, `[sort]`, `[order]` or none |
| QueryBuilder.ProcessQueryUrlParameters | src/github_cli.py:120-126 | after URL and query, splitting at `&` gives back exactly `per_page=count` and the given tokens, nothing else (for tokens without `&`) |
| QueryBuilder.ProcessQueryUrlPerPage | github_cli.py:127 | the URL mentions `per_page` once more than the URL, query and tokens together |
| QueryBuilder.ProcessQueryUrlPerPageOnce | github_cli.py:127 | `per_page` occurs exactly once when URL, query and tokens do not contain it |
| QueryBuilder.PerPageParamOccurrences | src/github_cli.py:120 | `per_page={count}` names the parameter once and holds no `&` or `?` |
| QueryBuilder.SplitAmpParams | src/github_cli.py:120-126 | splitting the `&`-joined suffix at `&` recovers the head and every token in order |
| QueryBuilder.OccurrencesAmpParams | src/github_cli.py:120-126 | the `&` separators create no new mention of `per_page`: mentions in the head and the tokens add up |
| QueryBuilder.SortToken | src/github_cli.py:68 | every sort key's text is one of `SORT_CHOICES` |
| QueryBuilder.SortChoicesAreTokens | src/github_cli.py:181 | a string is an accepted `--sort` choice exactly when it is the text of a sort key, and distinct keys have distinct texts |
| QueryBuilder.OrderToken | src/github_cli.py:184 | an order choice is `asc` or `desc` |
| QueryBuilder.SortTextChars | src/github_cli.py:181 | a sort choice text is non-empty exactly when the option is given, and holds no `?`, `&` or `_` |
| QueryBuilder.ChoicesLackPerPage | src/github_cli.py:181-185 | no sort or order choice mentions `per_page` |
| QueryBuilder.FindUrl | src/github_cli.py:188-189 | a find command's URL is refused exactly when its query is empty (the endpoint is never empty) |
| QueryBuilder.FindUrlPerPage | src/github_cli.py:189 | a find command's URL mentions `per_page` exactly once more than endpoint and query |
| QueryBuilder.FindUrlExample | src/github_cli.py:13 | the request of the curl comment (tetris in assembly, by stars, descending), built by find_repo with 50 per page, is `...?q=tetris+language:assembly&per_page=50&stars&desc`: bare tokens, not the comment's `&sort=stars&order=desc` |
| QueryBuilder.SearchBase | src/github_cli.py:6-8 | definition: the endpoint of each search type (repositories, topics, users), each ending in `?q=` |
| QueryBuilder.EndpointQuestionMark | src/github_cli.py:6-8 | each search endpoint holds exactly one `?` |
| QueryBuilder.GhListUrl | src/github_cli.py:242-246 | definition: `USER_REPOSITORIES_URL ++ username ++ "/repos?per_page=" ++ count`, then `"?" ++ sort` when a sort is given (same code at github_cli.py:205-209); its partners are GhListUrlParts and GhListUrlQuestionMarks |
| QueryBuilder.GhListUrlParts | github_cli.py:207-209 | split at `?`, the listing URL is the repository path of the user, `per_page=count`, and the sort token when given |
| QueryBuilder.GhListUrlQuestionMarks | src/github_cli.py:244-246 | the listing URL counts one `?` more than the user name, two more (plus the sort's own) when a sort is given |
| QueryBuilder.GhListUrlPerPage | github_cli.py:207-209 | the listing URL mentions `per_page` once beyond the user path and the sort token |
| SrcGithubCli.GhListQuestionMarks | src/github_cli.py:241-246 | with a sort choice the `gh_list` URL has exactly two `?`, otherwise one |
| Text.NatToString | src/github_cli.py:120 | the decimal text of `{count}`: non-empty digits, no leading zero, whose value is the count |
| Text.IntToString | src/github_cli.py:104 | definition: the text `str()` gives an integer inside `f"{v}"`: NatToString's digits, preceded by `-` for a negative value; ValueText uses it for Int values |
| Json.WellFormed | src/github_cli.py:143-154 | definition: every item of an envelope or list body is a dict without repeated keys; both click SearchGithub methods require it (same branches at github_cli.py:91-102) |
| Json.ValueText | src/github_cli.py:104 | definition: the text `f"{v}"` gives for a value: the string itself, the decimal integer, `True`/`False`, `None`, or the given text of a float or nested value |
| Json.DistinctKeys | src/github_cli.py:102 | definition: the pairs of a parsed dict never repeat a key; print_keeper and print_item require it of their item |
| Projection.Line | src/github_cli.py:104 | definition: the line `f"{k} => {v}"`; LineIsNotSeparator and PairLinesAt are about it |
| Projection.SearchingLine | src/github_cli.py:142 | definition: the line `Searching URL: {url}` (same line at github_cli.py:90 and gh_find.py:69); every SearchGithub method states it is the first line, and SearchingLineIsNotSeparator is about it |
| Projection.PairLines | src/github_cli.py:110-112 | definition: one `k => v` line per pair, in item order; PrintItem is proved against it, PairLinesAt states its i-th line, and Block uses it for the kept pairs |
| Projection.SeparatorShape | src/github_cli.py:100 | the separator is 20 `=` characters |
| Projection.LineIsNotSeparator | src/github_cli.py:104 | a `k => v` line is never the separator |
| Projection.SearchingLineIsNotSeparator | src/github_cli.py:142 | the `Searching URL:` line is never the separator |
| Projection.PairLinesAt | github_cli.py:117-119 | the i-th echoed line is the `k => v` line of the i-th pair |
| Projection.PairLinesHaveNoSeparator | src/github_cli.py:110-112 | echoed pairs contain no separator line |
| Projection.PrintItem | src/github_cli.py:110-112 | print_item echoes one line per pair, unfiltered and in order (same code at github_cli.py:117-119) |
| Projection.Kept | src/github_cli.py:102-103 | definition: the pairs of the item whose key is in the field set, in item order; its meaning is stated by KeptMembers, KeptAppend, KeptTwice, KeptAll, KeptNone and KeptDistinct |
| Projection.KeptDistinct | src/github_cli.py:102-104 | the kept pairs of a dict again have distinct keys: print_keeper prints no field twice |
| Projection.KeptMembers | src/github_cli.py:102-103 | a pair is printed exactly when it is in the item and its key is in the field set |
| Projection.KeptAppend | src/github_cli.py:102-103 | the filter keeps item order across concatenation |
| Projection.KeptTwice | src/github_cli.py:95-103 | filtering by two field sets in turn is filtering by their intersection |
| Projection.KeptAll | src/github_cli.py:102-103 | an item whose keys are all in the set passes unchanged |
| Projection.KeptNone | src/github_cli.py:102-103 | an item with no key in the set prints no field line |
| Projection.Block | src/github_cli.py:100-104 | definition: the separator, then the lines of the kept pairs; BlockShape states its shape |
| Projection.BlockShape | src/github_cli.py:100-104 | a block opens with the separator, contains no other separator, and has one line per kept pair |
| Projection.Blocks | src/github_cli.py:147-150 | definition: the blocks of the items one after another, in item order; BlocksAppend and BlocksSeparators are about it |
| Projection.BlocksAppend | src/github_cli.py:148-150 | the output for several items is their blocks one after another |
| Projection.BlocksSeparators | src/github_cli.py:148-154 | the output of n items holds exactly n separator lines |
| Projection.RenderBody | src/github_cli.py:143-156 | definition: for an envelope the `total` and `incomplete_results` lines and then the item blocks, for a list the element blocks, otherwise `No result found!` (same code at github_cli.py:91-104) |
| Projection.RenderBodyBlockCount | src/github_cli.py:144-156 | a rendered envelope or list holds one separator per item; any other body none |
| Projection.EnvelopeSummaryFirst | github_cli.py:90-98 | the URL line and the two summary lines precede every item block, and there are as many blocks as items |
| Projection.RenderEnvelopeExtends | src/github_cli.py:148-150 | one more item in an envelope adds exactly its block at the end |
| Projection.RenderEmptyEnvelope | src/github_cli.py:145-146 | an envelope without items prints only `total => ...` and `incomplete_results => ...` |
| SrcGithubCli.Keeper | src/github_cli.py:96-99 | definition: the long field set when `long` is set, the short one otherwise |
| SrcGithubCli.SizeGuard | src/github_cli.py:103 | definition: Python's chained `not (k == 'size' == '0')`, read as `not (k == 'size' and 'size' == '0')` |
| SrcGithubCli.SizeGuardNeverExcludes | src/github_cli.py:103 | the chained guard `not (k == 'size' == '0')` holds for every key |
| SrcGithubCli.ShortWithinLong | src/github_cli.py:70-92 | the short set lies within the long set; the long set adds exactly eight detail fields |
| SrcGithubCli.ShortListingOfLongListing | src/github_cli.py:95-104 | the short listing of an item is its long listing with the detail fields dropped |
| SrcGithubCli.PrintKeeper | src/github_cli.py:95-104 | print_keeper prints the separator and then the pairs whose key is in the set `long` selects, in item order |
| SrcGithubCli.PrintKeptPairs | src/github_cli.py:101-104 | the loop over the dict echoes exactly the kept pairs, in order, the size guard excluding none |
| SrcGithubCli.PrintBlocks | src/github_cli.py:147-150 | the loop over the items prints their blocks in order |
| SrcGithubCli.SearchGithub | src/github_cli.py:140-158 | the URL line, then for an OK reply the summary lines and blocks of an envelope, the blocks of a list, or `No result found!`; a failed reply raises |
| SrcGithubCli.RenderExample | src/github_cli.py:144-150 | an envelope with one repository (netbox) printed with the short set gives its two summary lines, a separator, and the five short-set fields in response order, without the star count |
| GithubCli.PrintKeeper | github_cli.py:109-114 | the separator, then exactly the pairs whose key is in `INTERESTED_ITEMS`, in item order |
| GithubCli.PrintKeptPairs | github_cli.py:112-114 | the loop over the dict echoes exactly the kept pairs, in order |
| GithubCli.PrintBlocks | github_cli.py:96-102 | the loop over the items prints their blocks in order |
| GithubCli.SearchGithub | github_cli.py:88-106 | the URL line, then for an OK reply the summary and blocks of an envelope, the blocks of a list, or `No result found!`; a failed reply raises |
| GhFind.InlineSearchUrl | gh_find.py:98-106 | the inline URL is the endpoint, the query and the `&`-joined given tokens, sort first |
| GhFind.InlineSearchUrlParameters | gh_find.py:100-106 | split at `&` after endpoint and query, the URL reads back as just the given tokens: no page size |
| GhFind.InlineSearchUrlPerPage | gh_find.py:100 | no `per_page` is added: its mentions are those of endpoint, query and tokens |
| GhFind.CommandUrl | gh_find.py:98-144 | the URL of find_repo, find_topic and find_user holds exactly one `?` beyond those of query and tokens, the endpoint's: the tokens are joined with `&`, never with a second `?` |
| GhFind.ListUserUrl | gh_find.py:153-157 | definition: `USER_REPOSITORIES_URL ++ username ++ "/repos"`, then `"?" ++ sort` when a sort is given; ListUserUrlParts is its partner |
| GhFind.ListUserUrlParts | gh_find.py:153-157 | split at `?`, the list_user URL is the user's repository path and the sort token when given |
| GhFind.SearchGithub | gh_find.py:67-80 | prints the URL line; an OK envelope returns its items, same length and order; a failed reply returns `No result found!`; any other OK body raises TypeError |

## Left out

- The HTTP transport (`requests.get`, `result.ok`, `result.json()`) is
  left out because it is the network and a foreign library. The model
  starts from an already parsed reply with an OK flag. The request
  headers are not modelled.
- `raise_for_status()` is modelled only as the `raised` flag. The
  exception text and the process exit code are not modelled.
- click argument parsing, groups, usage and banner echoes, colours
  (`click.style`) and `click.progressbar` are user-interface code and
  are left out. The choices and the count range become datatypes and a
  precondition.
- ProcessQueryUrl: the error message is only its first line. The usage
  text appended after the newline and the ClickException wrapping are
  left out.
- JSON values are rendered by the text `str()` gives for strings,
  integers, booleans and `None`. Floats and nested values are a
  `Formatted` text that is given, not computed, because Python's `repr`
  of floats, lists and dicts is not modelled.
- The list branch of src `print_keeper` (src/github_cli.py:105-107) is
  left out. It recurses on `stuff` instead of the element, so on a
  non-empty list it calls itself on the same list until Python raises
  RecursionError.
- A list element that is not a dict is left out; items are always
  dicts here. For such an element the src `print_keeper` prints the
  separator and then, for a non-empty list, ends in RecursionError (the
  recursion above); for a scalar or an empty list it prints only the
  separator. The github_cli.py one fails on `.items()`.
- A dict body missing some of the envelope keys is left out: the
  model's Envelope always has `total_count`, `incomplete_results` and
  `items`, and its Other is neither a dict nor a list. In
  src/github_cli.py (145-150) and github_cli.py (93-98) such a dict
  raises KeyError after printing the lines that precede the first
  missing key. gh_find.py reads only `items` (gh_find.py:73): a dict
  without it raises KeyError, and a dict holding just `items` returns
  them.
- In gh_find.py, the `json.loads(...)` applied to search_github's result
  (gh_find.py:107) and the `print` of it are left out: `json.loads` of
  a list fails at runtime. The commands' return values are not
  modelled.
- `search_user`, defined in both click front ends, is left out because
  no command calls it.
- `github_search.py` is left out, because it is a non-working draft.
  `setup.py` is left out, because it is packaging metadata.
