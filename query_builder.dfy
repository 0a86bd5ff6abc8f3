/** URL construction of the two command-line front ends: the four
    endpoint constants, the sort and order choices, process_query_url
    (identical in both front ends), the URLs of the three find commands
    and the URL of the user-repository listing. */
module QueryBuilder {
  import opened Wrappers
  import opened Text

  const RepositorySearchUrl: string := "https://api.github.com/search/repositories?q="
  const TopicSearchUrl: string := "https://api.github.com/search/topics?q="
  const UserSearchUrl: string := "https://api.github.com/search/users?q="
  const UserRepositoriesUrl: string := "https://api.github.com/users/"

  /** The first line of the message of the exception raised when the URL
      or the query is missing (the usage text after it is not modelled). */
  const MissingUrlOrQuery: string := "You must provide both the URL and a QUERY!"

  /** The name of the page-size parameter. */
  const PerPageName: string := "per_page"

  // ---------------------------------------------------------------------
  // The choices the commands accept for --sort and --order
  // ---------------------------------------------------------------------

  const SortChoices: seq<string> := ["stars", "forks", "help-wanted-issues", "updated", "best-match"]

  datatype SortKey = Stars | Forks | HelpWantedIssues | Updated | BestMatch

  /** The text of a sort choice, as the command receives it. */
  function SortToken(k: SortKey): (t: string)
    ensures t in SortChoices
  {
    match k
    case Stars => "stars"
    case Forks => "forks"
    case HelpWantedIssues => "help-wanted-issues"
    case Updated => "updated"
    case BestMatch => "best-match"
  }

  datatype Order = Asc | Desc

  function OrderToken(o: Order): (t: string)
    ensures t == "asc" || t == "desc"
  {
    match o
    case Asc => "asc"
    case Desc => "desc"
  }

  /** An optional choice as the plain string the code tests for
      truthiness: an absent option (None) becomes the empty string. */
  function SortText(k: Option<SortKey>): string {
    match k
    case None => ""
    case Some(key) => SortToken(key)
  }

  function OrderText(o: Option<Order>): string {
    match o
    case None => ""
    case Some(order) => OrderToken(order)
  }

  /** Every choice is the token of exactly one sort key. */
  lemma SortChoicesAreTokens()
    ensures forall t :: t in SortChoices <==> exists k :: SortToken(k) == t
    ensures forall k1, k2 :: SortToken(k1) == SortToken(k2) ==> k1 == k2
  {
    assert SortToken(Stars) == SortChoices[0];
    assert SortToken(Forks) == SortChoices[1];
    assert SortToken(HelpWantedIssues) == SortChoices[2];
    assert SortToken(Updated) == SortChoices[3];
    assert SortToken(BestMatch) == SortChoices[4];
  }

  /** A sort choice is a non-empty token with no '?', '&' or '_'; no
      choice is the empty string. */
  lemma SortTextChars(sort: Option<SortKey>)
    ensures var s := SortText(sort);
      && '?' !in s && '&' !in s && '_' !in s
      && (s != "" <==> sort.Some?)
  {
    if sort.Some? {
      var s := SortText(sort);
      match sort.value
      case Stars => assert s == "stars";
      case Forks => assert s == "forks";
      case HelpWantedIssues => assert s == "help-wanted-issues";
      case Updated => assert s == "updated";
      case BestMatch => assert s == "best-match";
    }
  }

  /** No choice token mentions the page-size parameter: none holds '_'. */
  lemma ChoicesLackPerPage(sort: Option<SortKey>, order: Option<Order>)
    ensures Occurrences(SortText(sort), PerPageName) == 0
    ensures Occurrences(OrderText(order), PerPageName) == 0
  {
    assert PerPageName[3] == '_';
    SortTextChars(sort);
    OccurrencesWithoutChar(SortText(sort), PerPageName, '_');
    OccurrencesWithoutChar(OrderText(order), PerPageName, '_');
  }

  // ---------------------------------------------------------------------
  // A reference form of the query-string suffix
  // ---------------------------------------------------------------------

  /** The sort and order tokens that are given (non-empty), sort first. */
  function Given(sort: string, order: string): (ts: seq<string>)
    ensures sort != "" && order != "" ==> ts == [sort, order]
    ensures sort != "" && order == "" ==> ts == [sort]
    ensures sort == "" && order != "" ==> ts == [order]
    ensures sort == "" && order == "" ==> ts == []
    ensures forall t :: t in ts <==> t != "" && (t == sort || t == order)
  {
    (if sort != "" then [sort] else []) + (if order != "" then [order] else [])
  }

  /** Each token of `ts` preceded by '&', all joined together. */
  function AmpParams(ts: seq<string>): string {
    if ts == [] then "" else "&" + ts[0] + AmpParams(ts[1..])
  }

  lemma AmpParamsCons(t: string, ts: seq<string>)
    ensures AmpParams([t] + ts) == "&" + t + AmpParams(ts)
  {
    assert ([t] + ts)[1..] == ts;
  }

  /** The four cases of the suffix the given tokens make. */
  lemma AmpParamsGiven(sort: string, order: string)
    ensures AmpParams(Given(sort, order)) ==
      if sort != "" && order != "" then "&" + sort + "&" + order
      else if sort != "" then "&" + sort
      else if order != "" then "&" + order
      else ""
  {
    if sort != "" && order != "" {
      AmpParamsCons(sort, [order]);
      AmpParamsCons(order, []);
    } else if sort != "" {
      AmpParamsCons(sort, []);
    } else if order != "" {
      AmpParamsCons(order, []);
    }
  }

  /** The if/elif chain that appends the given tokens, each after an '&',
      is `AmpParams` of the given tokens. */
  lemma GivenSuffix(u: string, sort: string, order: string)
    ensures (if sort != "" && order != "" then u + "&" + sort + "&" + order
             else if sort != "" then u + "&" + sort
             else if order != "" then u + "&" + order
             else u) == u + AmpParams(Given(sort, order))
  {
    AmpParamsGiven(sort, order);
  }

  /** `per_page={count}` */
  function PerPageParam(count: int): string
    requires count >= 0
  {
    PerPageName + "=" + NatToString(count)
  }

  /** Each separator-free token after a separator-free head comes back
      as one piece when the string is split at '&'. */
  lemma {:induction false} SplitAmpParams(w: string, ts: seq<string>)
    requires '&' !in w
    requires forall i :: 0 <= i < |ts| ==> '&' !in ts[i]
    ensures Split(w + AmpParams(ts), '&') == [w] + ts
    decreases |ts|
  {
    if ts == [] {
      assert w + AmpParams(ts) == w;
      SplitWithout(w, '&');
    } else {
      var rest := ts[0] + AmpParams(ts[1..]);
      assert w + AmpParams(ts) == w + ['&'] + rest;
      SplitAfter(w, '&', rest);
      SplitAmpParams(ts[0], ts[1..]);
      assert [ts[0]] + ts[1..] == ts;
    }
  }

  /** The number of occurrences of the parameter name in each token. */
  function OccurrenceSum(ts: seq<string>): nat {
    if ts == [] then 0 else Occurrences(ts[0], PerPageName) + OccurrenceSum(ts[1..])
  }

  /** '&' cannot be part of an occurrence of the parameter name, so the
      occurrences of head and tokens add up. */
  lemma {:induction false} OccurrencesAmpParams(w: string, ts: seq<string>)
    ensures Occurrences(w + AmpParams(ts), PerPageName) == Occurrences(w, PerPageName) + OccurrenceSum(ts)
    decreases |ts|
  {
    if ts == [] {
      assert w + AmpParams(ts) == w;
    } else {
      var rest := ts[0] + AmpParams(ts[1..]);
      assert w + AmpParams(ts) == w + ['&'] + rest;
      OccurrencesAcross(w, '&', rest, PerPageName);
      OccurrencesAmpParams(ts[0], ts[1..]);
    }
  }

  /** The page-size parameter mentions its name exactly once. */
  lemma PerPageParamOccurrences(count: int)
    requires count >= 0
    ensures Occurrences(PerPageParam(count), PerPageName) == 1
    ensures '&' !in PerPageParam(count) && '?' !in PerPageParam(count)
  {
    var digits := NatToString(count);
    DigitsLackMarks(digits);
    ParamOccurrences(digits);
  }

  lemma DigitsLackMarks(s: string)
    requires AllDigits(s)
    ensures 'p' !in s && '&' !in s && '?' !in s
  {
    forall i | 0 <= i < |s| ensures s[i] != 'p' && s[i] != '&' && s[i] != '?' {
      assert IsDigit(s[i]);
    }
  }

  lemma ParamOccurrences(digits: string)
    requires 'p' !in digits && '&' !in digits && '?' !in digits
    ensures Occurrences(PerPageName + "=" + digits, PerPageName) == 1
    ensures '&' !in PerPageName + "=" + digits && '?' !in PerPageName + "=" + digits
  {
    assert PerPageName + "=" + digits == PerPageName + ['='] + digits;
    OccurrencesAcross(PerPageName, '=', digits, PerPageName);
    assert PerPageName[0] == 'p';
    OccurrencesWithoutChar(digits, PerPageName, 'p');
    NameOccursOnce();
  }

  lemma NameOccursOnce()
    ensures Occurrences(PerPageName, PerPageName) == 1
  {
    assert PerPageName[1..] == "er_page";
    OccurrencesShort("er_page", PerPageName);
  }

  lemma PageSizeLiteral()
    ensures "&per_page=" == "&" + PerPageName + "="
  {
  }

  /** The URL process_query_url composes is the URL and query (`head`)
      followed by the page size and the given tokens, each after an '&'. */
  lemma QueryUrlValue(head: string, digits: string, sort: string, order: string)
    ensures var u := head + "&per_page=" + digits;
      (if sort != "" && order != "" then u + "&" + sort + "&" + order
       else if sort != "" then u + "&" + sort
       else if order != "" then u + "&" + order
       else u) == head + AmpParams([PerPageName + "=" + digits] + Given(sort, order))
  {
    GivenSuffix(head + "&per_page=" + digits, sort, order);
    PageSizeJoin(head, digits, Given(sort, order));
  }

  /** The literal page size followed by '&'-joined tokens is one more
      '&'-joined token, `per_page=` and the digits. */
  lemma PageSizeJoin(head: string, digits: string, g: seq<string>)
    ensures head + "&per_page=" + digits + AmpParams(g) == head + AmpParams([PerPageName + "=" + digits] + g)
  {
    var p := PerPageName + "=" + digits;
    PageSizeLiteral();
    AmpParamsCons(p, g);
    calc {
      head + "&per_page=" + digits + AmpParams(g);
      head + ("&per_page=" + digits) + AmpParams(g);
      head + ("&" + p) + AmpParams(g);
      head + ("&" + p + AmpParams(g));
    }
  }

  // ---------------------------------------------------------------------
  // process_query_url
  // ---------------------------------------------------------------------

  /** process_query_url: refuses a missing URL or query; otherwise the URL,
      the query verbatim, the page size, and each given sort/order token
      after an '&' (bare tokens, not `sort=`/`order=` parameters). */
  function ProcessQueryUrl(url: string, query: string, sort: string, order: string, count: int): (r: Result<string>)
    requires 1 <= count <= 100
    ensures r.Err? <==> url == "" || query == ""
    ensures r.Err? ==> r.message == MissingUrlOrQuery
    ensures r.Ok? ==> r.value == url + query + AmpParams([PerPageParam(count)] + Given(sort, order))
  {
    if url == "" || query == "" then Err(MissingUrlOrQuery)
    else
      QueryUrlValue(url + query, NatToString(count), sort, order);
      var url := url + query + "&per_page=" + NatToString(count);
      var r :=
        if sort != "" && order != "" then url + "&" + sort + "&" + order
        else if sort != "" then url + "&" + sort
        else if order != "" then url + "&" + order
        else url;
      Ok(r)
  }

  /** Split at '&' after the URL and query, the result reads back as
      exactly the page size followed by the given tokens, sort first and
      nothing after them. */
  lemma ProcessQueryUrlParameters(url: string, query: string, sort: string, order: string, count: int)
    requires 1 <= count <= 100
    requires url != "" && query != ""
    requires '&' !in sort && '&' !in order
    ensures var u := ProcessQueryUrl(url, query, sort, order, count).value;
      && u[..|url| + |query|] == url + query
      && Split(u[|url| + |query|..], '&') == ["", PerPageParam(count)] + Given(sort, order)
  {
    var ts := [PerPageParam(count)] + Given(sort, order);
    var u := ProcessQueryUrl(url, query, sort, order, count).value;
    PerPageParamOccurrences(count);
    assert u[|url| + |query|..] == "" + AmpParams(ts);
    SplitAmpParams("", ts);
  }

  /** The result mentions `per_page` once more than the URL, query and
      tokens do between them. */
  lemma ProcessQueryUrlPerPage(url: string, query: string, sort: string, order: string, count: int)
    requires 1 <= count <= 100
    requires url != "" && query != ""
    ensures Occurrences(ProcessQueryUrl(url, query, sort, order, count).value, PerPageName) ==
            Occurrences(url + query, PerPageName) + 1 +
            Occurrences(sort, PerPageName) + Occurrences(order, PerPageName)
  {
    var ts := [PerPageParam(count)] + Given(sort, order);
    OccurrencesAmpParams(url + query, ts);
    PerPageParamOccurrences(count);
    assert ts[0] == PerPageParam(count) && ts[1..] == Given(sort, order);
    var g := Given(sort, order);
    OccurrencesShort("", PerPageName);
    assert OccurrenceSum(ts) == 1 + OccurrenceSum(g);
    if sort != "" && order != "" {
      assert g[0] == sort && g[1..][0] == order && g[1..][1..] == [];
      assert OccurrenceSum(g) == Occurrences(sort, PerPageName) + OccurrenceSum(g[1..]);
      assert OccurrenceSum(g[1..]) == Occurrences(order, PerPageName) + OccurrenceSum(g[1..][1..]);
    } else if sort != "" {
      assert g == [sort] && g[1..] == [];
    } else if order != "" {
      assert g == [order] && g[1..] == [];
    }
  }

  /** Hence `per_page` occurs exactly once whenever the URL, query and
      tokens do not mention it themselves. */
  lemma ProcessQueryUrlPerPageOnce(url: string, query: string, sort: string, order: string, count: int)
    requires 1 <= count <= 100
    requires url != "" && query != ""
    requires Occurrences(url + query, PerPageName) == 0
    requires Occurrences(sort, PerPageName) == 0 && Occurrences(order, PerPageName) == 0
    ensures Occurrences(ProcessQueryUrl(url, query, sort, order, count).value, PerPageName) == 1
  {
    ProcessQueryUrlPerPage(url, query, sort, order, count);
  }

  // ---------------------------------------------------------------------
  // The find commands
  // ---------------------------------------------------------------------

  datatype SearchType = Repository | Topic | User

  function SearchBase(t: SearchType): string {
    match t
    case Repository => RepositorySearchUrl
    case Topic => TopicSearchUrl
    case User => UserSearchUrl
  }

  /** Each search endpoint holds exactly one '?', the one before `q=`. */
  lemma EndpointQuestionMark(t: SearchType)
    ensures multiset(SearchBase(t))['?'] == 1
  {
    match t
    case Repository => RepositoryEndpoint();
    case Topic => TopicEndpoint();
    case User => UserEndpoint();
  }

  lemma RepositoryEndpoint()
    ensures multiset(RepositorySearchUrl)['?'] == 1
  {
    var host := "https://api.github.com/search/repositories";
    assert RepositorySearchUrl == host + "?q=";
    QueryStart(host);
  }

  lemma TopicEndpoint()
    ensures multiset(TopicSearchUrl)['?'] == 1
  {
    var host := "https://api.github.com/search/topics";
    assert TopicSearchUrl == host + "?q=";
    QueryStart(host);
  }

  lemma UserEndpoint()
    ensures multiset(UserSearchUrl)['?'] == 1
  {
    var host := "https://api.github.com/search/users";
    assert UserSearchUrl == host + "?q=";
    QueryStart(host);
  }

  lemma QueryStart(host: string)
    requires '?' !in host
    ensures multiset(host + "?q=")['?'] == 1
  {
    CountAbsent(host, '?');
    assert multiset(host + "?q=") == multiset(host) + multiset("?q=");
  }

  /** The URL a find command builds from its arguments. The endpoint is
      never empty, so only an empty query is refused. */
  function FindUrl(t: SearchType, query: string, sort: Option<SortKey>, order: Option<Order>, count: int): (r: Result<string>)
    requires 1 <= count <= 100
    ensures r.Err? <==> query == ""
  {
    assert |SearchBase(t)| > 0;
    ProcessQueryUrl(SearchBase(t), query, SortText(sort), OrderText(order), count)
  }

  /** The choice tokens never add a mention of `per_page`: the URL of a
      find command has exactly one more than endpoint and query. */
  lemma FindUrlPerPage(t: SearchType, query: string, sort: Option<SortKey>, order: Option<Order>, count: int)
    requires 1 <= count <= 100
    requires query != ""
    ensures Occurrences(FindUrl(t, query, sort, order, count).value, PerPageName) ==
            Occurrences(SearchBase(t) + query, PerPageName) + 1
  {
    ChoicesLackPerPage(sort, order);
    ProcessQueryUrlPerPage(SearchBase(t), query, SortText(sort), OrderText(order), count);
  }

  /** The request of the curl comment at the head of the command-line
      module (repositories about tetris in assembly, by stars, descending),
      50 per page: the code appends bare `&stars&desc`, not the
      `&sort=stars&order=desc` the comment writes. */
  lemma FindUrlExample()
    ensures FindUrl(Repository, "tetris+language:assembly", Some(Stars), Some(Desc), 50) ==
      Ok(RepositorySearchUrl + "tetris+language:assembly" + "&per_page=50&stars&desc")
  {
    ExampleSuffix(RepositorySearchUrl);
  }

  lemma ExampleSuffix(url: string)
    requires url != ""
    ensures ProcessQueryUrl(url, "tetris+language:assembly", "stars", "desc", 50) ==
      Ok(url + "tetris+language:assembly" + "&per_page=50&stars&desc")
  {
    var q := "tetris+language:assembly";
    assert NatToString(50) == "50" by {
      assert NatToString(5) == "5";
    }
    var tail := "&per_page=" + "50" + "&" + "stars" + "&" + "desc";
    assert url + q + "&per_page=" + "50" + "&" + "stars" + "&" + "desc" == url + q + tail;
    assert tail == "&per_page=50&stars&desc";
  }

  // ---------------------------------------------------------------------
  // The user-repository listing (gh_list)
  // ---------------------------------------------------------------------

  /** The URL gh_list builds: the sort token is attached with a second
      '?', after the page size. */
  function GhListUrl(username: string, sort: string, count: int): string
    requires 1 <= count <= 100
  {
    var url := UserRepositoriesUrl + username + "/repos?per_page=" + NatToString(count);
    if sort != "" then url + "?" + sort else url
  }

  /** The part of the listing URL after the user name. */
  lemma ListTail(prefix: string, sort: string, count: int)
    requires 1 <= count <= 100
    ensures var path := prefix + "/repos";
      GhListUrlAfter(prefix, sort, count) ==
        if sort != "" then path + ['?'] + (PerPageParam(count) + ['?'] + sort)
        else path + ['?'] + PerPageParam(count)
  {
    assert "/repos?per_page=" == "/repos" + ['?'] + PerPageName + "=";
  }

  /** GhListUrl with the endpoint and user name as one prefix. */
  function GhListUrlAfter(prefix: string, sort: string, count: int): string
    requires 1 <= count <= 100
  {
    var url := prefix + "/repos?per_page=" + NatToString(count);
    if sort != "" then url + "?" + sort else url
  }

  lemma UserRepositoriesUrlHasNoQuestionMark()
    ensures '?' !in UserRepositoriesUrl
  {
  }

  /** Split at '?', the URL is the user's repository path, the page size,
      and the sort token when one is given. */
  lemma GhListUrlParts(username: string, sort: string, count: int)
    requires 1 <= count <= 100
    requires '?' !in username && '?' !in sort
    ensures Split(GhListUrl(username, sort, count), '?') ==
      [UserRepositoriesUrl + username + "/repos", PerPageParam(count)] + (if sort != "" then [sort] else [])
  {
    var prefix := UserRepositoriesUrl + username;
    var path := prefix + "/repos";
    var p := PerPageParam(count);
    assert GhListUrl(username, sort, count) == GhListUrlAfter(prefix, sort, count);
    ListTail(prefix, sort, count);
    PerPageParamOccurrences(count);
    UserRepositoriesUrlHasNoQuestionMark();
    assert '?' !in "/repos";
    assert '?' !in path;
    if sort != "" {
      SplitAfter(path, '?', p + ['?'] + sort);
      SplitAfter(p, '?', sort);
      SplitWithout(sort, '?');
    } else {
      SplitAfter(path, '?', p);
      SplitWithout(p, '?');
    }
  }

  /** The listing counts one '?' more than the user name, and two more
      when a sort token is given. */
  lemma GhListUrlQuestionMarks(username: string, sort: string, count: int)
    requires 1 <= count <= 100
    ensures multiset(GhListUrl(username, sort, count))['?'] ==
      multiset(username)['?'] + (if sort != "" then 2 + multiset(sort)['?'] else 1)
  {
    var prefix := UserRepositoriesUrl + username;
    assert GhListUrl(username, sort, count) == GhListUrlAfter(prefix, sort, count);
    QuestionMarksAfter(prefix, sort, count);
    UserRepositoriesUrlHasNoQuestionMark();
    CountAbsent(UserRepositoriesUrl, '?');
    assert multiset(prefix) == multiset(UserRepositoriesUrl) + multiset(username);
  }

  lemma QuestionMarksAfter(prefix: string, sort: string, count: int)
    requires 1 <= count <= 100
    ensures multiset(GhListUrlAfter(prefix, sort, count))['?'] ==
      multiset(prefix)['?'] + (if sort != "" then 2 + multiset(sort)['?'] else 1)
  {
    var path := prefix + "/repos";
    var p := PerPageParam(count);
    ListTail(prefix, sort, count);
    PerPageParamOccurrences(count);
    CountAbsent("/repos", '?');
    CountAbsent(p, '?');
    assert multiset(path) == multiset(prefix) + multiset("/repos");
  }

  lemma CountAbsent(s: string, c: char)
    requires c !in s
    ensures multiset(s)[c] == 0
  {
  }

  /** The listing mentions `per_page` once, past the user path, plus any
      mention in the sort token. */
  lemma GhListUrlPerPage(username: string, sort: string, count: int)
    requires 1 <= count <= 100
    ensures Occurrences(GhListUrl(username, sort, count), PerPageName) ==
      Occurrences(UserRepositoriesUrl + username + "/repos", PerPageName) + 1 + Occurrences(sort, PerPageName)
  {
    var prefix := UserRepositoriesUrl + username;
    var path := prefix + "/repos";
    var p := PerPageParam(count);
    assert GhListUrl(username, sort, count) == GhListUrlAfter(prefix, sort, count);
    ListTail(prefix, sort, count);
    PerPageParamOccurrences(count);
    if sort != "" {
      OccurrencesAcross(path, '?', p + ['?'] + sort, PerPageName);
      OccurrencesAcross(p, '?', sort, PerPageName);
    } else {
      OccurrencesAcross(path, '?', p, PerPageName);
    }
  }
}
