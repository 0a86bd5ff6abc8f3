/** The front end in gh_find.py: URLs composed inline by each command,
    without a page size, and a search_github that hands back the items of
    the reply instead of printing them. */
module GhFind {
  import opened Text
  import opened Json
  import opened Projection
  import opened QueryBuilder

  /** The URL find_repo, find_topic and find_user compose: the endpoint,
      the query verbatim, and each given sort/order token after an '&'. */
  function InlineSearchUrl(base: string, query: string, sort: string, order: string): (r: string)
    ensures r == base + query + AmpParams(Given(sort, order))
  {
    var url := base + query;
    GivenSuffix(url, sort, order);
    if sort != "" && order != "" then url + "&" + sort + "&" + order
    else if sort != "" then url + "&" + sort
    else if order != "" then url + "&" + order
    else url
  }

  /** The URL of find_repo, find_topic or find_user. Its only '?' besides
      those of query and tokens is the endpoint's: the tokens are joined
      with '&' and no second '?' is added, unlike the user listings. */
  function CommandUrl(t: SearchType, query: string, sort: string, order: string): (r: string)
    ensures multiset(r)['?'] == 1 + multiset(query)['?'] + multiset(sort)['?'] + multiset(order)['?']
  {
    EndpointQuestionMark(t);
    AmpParamsGiven(sort, order);
    InlineSearchUrl(SearchBase(t), query, sort, order)
  }

  /** Split at '&' after the endpoint and query, the URL reads back as the
      given tokens, sort first, and no page size. */
  lemma InlineSearchUrlParameters(base: string, query: string, sort: string, order: string)
    requires '&' !in sort && '&' !in order
    ensures var u := InlineSearchUrl(base, query, sort, order);
      && u[..|base| + |query|] == base + query
      && Split(u[|base| + |query|..], '&') == [""] + Given(sort, order)
  {
    var u := InlineSearchUrl(base, query, sort, order);
    assert u[|base| + |query|..] == "" + AmpParams(Given(sort, order));
    SplitAmpParams("", Given(sort, order));
  }

  /** No `per_page` is added: the URL mentions it only where the endpoint,
      query or tokens do. */
  lemma InlineSearchUrlPerPage(base: string, query: string, sort: string, order: string)
    ensures Occurrences(InlineSearchUrl(base, query, sort, order), PerPageName) ==
      Occurrences(base + query, PerPageName) + Occurrences(sort, PerPageName) + Occurrences(order, PerPageName)
  {
    var g := Given(sort, order);
    OccurrencesAmpParams(base + query, g);
    OccurrencesShort("", PerPageName);
    if sort != "" && order != "" {
      assert g[0] == sort && g[1..][0] == order && g[1..][1..] == [];
      assert OccurrenceSum(g) == Occurrences(sort, PerPageName) + OccurrenceSum(g[1..]);
      assert OccurrenceSum(g[1..]) == Occurrences(order, PerPageName) + OccurrenceSum(g[1..][1..]);
    } else if sort != "" {
      assert g == [sort] && g[1..] == [];
    } else if order != "" {
      assert g == [order] && g[1..] == [];
    }
  }

  /** The URL list_user composes: the user's repository path, and the sort
      token after a '?' when one is given. */
  function ListUserUrl(username: string, sort: string): string {
    var url := UserRepositoriesUrl + username + "/repos";
    if sort != "" then url + "?" + sort else url
  }

  /** Split at '?', the listing URL is the user's repository path and the
      sort token when one is given: no page size, no other parameter. */
  lemma ListUserUrlParts(username: string, sort: string)
    requires '?' !in username && '?' !in sort
    ensures Split(ListUserUrl(username, sort), '?') ==
      [UserRepositoriesUrl + username + "/repos"] + (if sort != "" then [sort] else [])
  {
    var path := UserRepositoriesUrl + username + "/repos";
    UserRepositoriesUrlHasNoQuestionMark();
    assert '?' !in "/repos";
    assert '?' !in path;
    if sort != "" {
      assert ListUserUrl(username, sort) == path + ['?'] + sort;
      SplitAfter(path, '?', sort);
      SplitWithout(sort, '?');
    } else {
      SplitWithout(path, '?');
    }
  }

  /** What search_github hands back. */
  datatype Returned =
    | Items(list: seq<Item>)   // keep_list, on a successful reply
    | Message(text: string)    // the no-result string, on a failed reply
    | TypeError                // `repo_info['items']` on a list or scalar body

  /** search_github: prints the URL line; for a successful envelope it
      returns a list of all its items, same length and order; for a failed
      reply, the no-result string; indexing any other successful body with
      'items' raises. */
  method SearchGithub(url: string, reply: Reply) returns (lines: seq<string>, r: Returned)
    ensures lines == [SearchingLine(url)]
    ensures !reply.ok ==> r == Message(NoResultFound)
    ensures reply.ok && reply.body.Envelope? ==> r == Items(reply.body.items)
    ensures reply.ok && !reply.body.Envelope? ==> r == TypeError
  {
    lines := [SearchingLine(url)];
    if !reply.ok {
      return lines, Message(NoResultFound);
    }
    if !reply.body.Envelope? {
      return lines, TypeError;
    }
    var items := reply.body.items;
    var keepList: seq<Item> := [];
    var i := 0;
    while i < |items|
      invariant 0 <= i <= |items|
      invariant keepList == items[..i]
    {
      keepList := keepList + [items[i]];
      i := i + 1;
    }
    assert items[..i] == items;
    r := Items(keepList);
  }
}
