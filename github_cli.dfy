/** The front end in github_cli.py: a single field set, print_keeper
    without a type test or guard, and search_github without a --long
    flag. Its process_query_url and gh_list URL are the same code as in
    src/github_cli.py and are modelled once, in QueryBuilder. */
module GithubCli {
  import opened Json
  import opened Projection

  /** The keys of INTERESTED_ITEMS. */
  const InterestedItems: set<string> :=
    {"name", "description", "html_url", "clone_url", "language", "fork", "size",
     "stargazers_count", "watchers_count", "open_issues_count", "forks",
     "created_at", "updated_at"}

  /** print_keeper: the separator, then exactly the pairs of the item
      whose key is in INTERESTED_ITEMS, in item order. */
  method PrintKeeper(stuff: Item) returns (lines: seq<string>)
    requires DistinctKeys(stuff)
    ensures lines == Block(stuff, InterestedItems)
  {
    var pairs := PrintKeptPairs(stuff, InterestedItems);
    lines := [Separator] + pairs;
  }

  /** The loop of print_keeper over the pairs of the item: a pair is
      echoed when its key is in `keeper`. */
  method PrintKeptPairs(stuff: Item, keeper: set<string>) returns (lines: seq<string>)
    requires DistinctKeys(stuff)
    ensures lines == PairLines(Kept(stuff, keeper))
  {
    lines := [];
    var i := 0;
    while i < |stuff|
      invariant 0 <= i <= |stuff|
      invariant lines == PairLines(Kept(stuff[..i], keeper))
    {
      var (k, v) := stuff[i];
      assert stuff[..i + 1] == stuff[..i] + [(k, v)];
      var kept := Kept(stuff[..i], keeper);
      KeptSnoc(stuff[..i], (k, v), keeper);
      if k in keeper {
        PairLinesSnoc(kept, (k, v));
        lines := lines + [Line(k, v)];
      } else {
        assert kept + [] == kept;
      }
      i := i + 1;
    }
    assert stuff[..i] == stuff;
  }

  /** The loop over the items of a reply: one print_keeper block each. */
  method PrintBlocks(items: seq<Item>) returns (lines: seq<string>)
    requires forall i :: 0 <= i < |items| ==> DistinctKeys(items[i])
    ensures lines == Blocks(items, InterestedItems)
  {
    lines := [];
    var i := 0;
    while i < |items|
      invariant 0 <= i <= |items|
      invariant lines == Blocks(items[..i], InterestedItems)
    {
      var block := PrintKeeper(items[i]);
      assert items[..i + 1] == items[..i] + [items[i]];
      BlocksSnoc(items[..i], items[i], InterestedItems);
      lines := lines + block;
      i := i + 1;
    }
    assert items[..i] == items;
  }

  /** search_github: the URL line, then, for a successful reply, the
      rendering of its body; an unsuccessful reply raises the HTTP error
      (raise_for_status) after the URL line. */
  method SearchGithub(url: string, reply: Reply) returns (lines: seq<string>, raised: bool)
    requires WellFormed(reply.body)
    ensures raised == !reply.ok
    ensures lines == [SearchingLine(url)] + (if reply.ok then RenderBody(reply.body, InterestedItems) else [])
  {
    lines := [SearchingLine(url)];
    if !reply.ok {
      raised := true;
      return;
    }
    raised := false;
    match reply.body {
      case Envelope(total, incomplete, items) =>
        var totalLine := PrintItem([("total", total)]);
        var incompleteLine := PrintItem([("incomplete_results", incomplete)]);
        var blocks := PrintBlocks(items);
        lines := lines + totalLine + incompleteLine + blocks;
      case List(elements) =>
        var blocks := PrintBlocks(elements);
        lines := lines + blocks;
      case Other =>
        lines := lines + [NoResultFound];
    }
  }
}
