/** The front end in src/github_cli.py: a short and a long field set
    chosen by the --long flag, print_keeper with its size guard, and
    search_github's rendering of a reply. */
module SrcGithubCli {
  import opened Wrappers
  import opened Json
  import opened Projection
  import opened QueryBuilder

  /** The keys of INTERESTED_ITEMS_SHORT. */
  const InterestedItemsShort: set<string> :=
    {"name", "description", "html_url", "created_at", "updated_at"}

  /** The keys of INTERESTED_ITEMS_LONG. */
  const InterestedItemsLong: set<string> :=
    {"name", "description", "html_url", "clone_url", "language", "fork", "size",
     "stargazers_count", "watchers_count", "open_issues_count", "forks",
     "created_at", "updated_at"}

  /** The field set print_keeper uses for a value of the --long flag. */
  function Keeper(long: bool): set<string> {
    if long then InterestedItemsLong else InterestedItemsShort
  }

  /** The chained comparison `not (k == 'size' == '0')`, which Python reads
      as `not (k == 'size' and 'size' == '0')`. */
  predicate SizeGuard(k: string) {
    !(k == "size" && "size" == "0")
  }

  /** The guard never rejects a key, not even "size". */
  lemma SizeGuardNeverExcludes(k: string)
    ensures SizeGuard(k)
  {
  }

  /** The long set adds detail fields to the short set and drops none. */
  lemma ShortWithinLong()
    ensures InterestedItemsShort <= InterestedItemsLong
    ensures InterestedItemsLong - InterestedItemsShort ==
      {"clone_url", "language", "fork", "size", "stargazers_count", "watchers_count",
       "open_issues_count", "forks"}
  {
  }

  /** The short listing of an item is its long listing with the detail
      fields dropped, in the same order. */
  lemma ShortListingOfLongListing(item: Item)
    ensures Kept(Kept(item, Keeper(true)), Keeper(false)) == Kept(item, Keeper(false))
  {
    KeptTwice(item, InterestedItemsLong, InterestedItemsShort);
    ShortWithinLong();
    assert InterestedItemsLong * InterestedItemsShort == InterestedItemsShort;
  }

  /** print_keeper on a dict: the separator, then one "k => v" line per
      pair whose key is in the chosen field set, in item order. */
  method PrintKeeper(stuff: Item, long: bool) returns (lines: seq<string>)
    requires DistinctKeys(stuff)
    ensures lines == Block(stuff, Keeper(long))
  {
    var keeper := if long then InterestedItemsLong else InterestedItemsShort;
    var pairs := PrintKeptPairs(stuff, keeper);
    lines := [Separator] + pairs;
  }

  /** The loop of print_keeper over the pairs of a dict: a pair is echoed
      when its key is in `keeper` and passes the size guard. */
  method PrintKeptPairs(stuff: Item, keeper: set<string>) returns (lines: seq<string>)
    requires DistinctKeys(stuff)
    ensures lines == PairLines(Kept(stuff, keeper))
  {
    lines := [];
    var i := 0;
    while i < |stuff|
      invariant 0 <= i <= |stuff|
      invariant lines == PairLines(Kept(stuff[..i], keeper))
    {
      var (k, v) := stuff[i];
      assert stuff[..i + 1] == stuff[..i] + [(k, v)];
      var kept := Kept(stuff[..i], keeper);
      KeptSnoc(stuff[..i], (k, v), keeper);
      if k in keeper && SizeGuard(k) {
        PairLinesSnoc(kept, (k, v));
        lines := lines + [Line(k, v)];
      } else {
        SizeGuardNeverExcludes(k);
        assert kept + [] == kept;
      }
      i := i + 1;
    }
    assert stuff[..i] == stuff;
  }

  /** The loop over the items of a reply: one print_keeper block each. */
  method PrintBlocks(items: seq<Item>, long: bool) returns (lines: seq<string>)
    requires forall i :: 0 <= i < |items| ==> DistinctKeys(items[i])
    ensures lines == Blocks(items, Keeper(long))
  {
    lines := [];
    var i := 0;
    while i < |items|
      invariant 0 <= i <= |items|
      invariant lines == Blocks(items[..i], Keeper(long))
    {
      var block := PrintKeeper(items[i], long);
      assert items[..i + 1] == items[..i] + [items[i]];
      BlocksSnoc(items[..i], items[i], Keeper(long));
      lines := lines + block;
      i := i + 1;
    }
    assert items[..i] == items;
  }

  /** search_github: the URL line, then, for a successful reply, the
      rendering of its body; an unsuccessful reply raises the HTTP error
      (raise_for_status) after the URL line. */
  method SearchGithub(url: string, reply: Reply, long: bool) returns (lines: seq<string>, raised: bool)
    requires WellFormed(reply.body)
    ensures raised == !reply.ok
    ensures lines == [SearchingLine(url)] + (if reply.ok then RenderBody(reply.body, Keeper(long)) else [])
  {
    lines := [SearchingLine(url)];
    if !reply.ok {
      raised := true;
      return;
    }
    raised := false;
    match reply.body {
      case Envelope(total, incomplete, items) =>
        var totalLine := PrintItem([("total", total)]);
        var incompleteLine := PrintItem([("incomplete_results", incomplete)]);
        var blocks := PrintBlocks(items, long);
        lines := lines + totalLine + incompleteLine + blocks;
      case List(elements) =>
        var blocks := PrintBlocks(elements, long);
        lines := lines + blocks;
      case Other =>
        lines := lines + [NoResultFound];
    }
  }

  /** With a sort choice, gh_list's URL carries exactly two '?' (for a
      user name without one); without a sort choice, exactly one. */
  lemma GhListQuestionMarks(username: string, sort: Option<SortKey>, count: int)
    requires 1 <= count <= 100
    requires '?' !in username
    ensures multiset(GhListUrl(username, SortText(sort), count))['?'] == if sort.Some? then 2 else 1
  {
    var s := SortText(sort);
    GhListUrlQuestionMarks(username, s, count);
    CountAbsent(username, '?');
    SortTextChars(sort);
    CountAbsent(s, '?');
  }

  /** A reply with one repository (netbox), printed with the short field
      set: the summary lines, the separator, and the five short-set fields
      in response order; the star count is not in that set. */
  lemma RenderExample()
    ensures RenderBody(Envelope(Int(1), Bool(false), [ExampleItem() + [("stargazers_count", Int(4783))]]), Keeper(false)) ==
      [Line("total", Int(1)), Line("incomplete_results", Bool(false)), Separator] + ExampleLines()
  {
    var item := ExampleItem() + [("stargazers_count", Int(4783))];
    ExampleKept();
    ExamplePairLines();
    BlocksSnoc([], item, InterestedItemsShort);
    assert [] + [item] == [item];
  }

  /** The short-set fields of that repository, in response order. */
  function ExampleItem(): Item {
    [("name", Str("netbox")), ("description", Str("IPAM tool")),
     ("html_url", Str("https://github.com/digitalocean/netbox")),
     ("created_at", Str("2016-02-29")), ("updated_at", Str("2019-01-29"))]
  }

  /** The lines of those fields. */
  function ExampleLines(): seq<string> {
    [Line("name", Str("netbox")), Line("description", Str("IPAM tool")),
     Line("html_url", Str("https://github.com/digitalocean/netbox")),
     Line("created_at", Str("2016-02-29")), Line("updated_at", Str("2019-01-29"))]
  }

  lemma ExamplePairLines()
    ensures PairLines(ExampleItem()) == ExampleLines()
  {
    var item := ExampleItem();
    forall i | 0 <= i < 5 ensures PairLines(item)[i] == ExampleLines()[i] {
      PairLinesAt(item, i);
    }
  }

  lemma ExampleKept()
    ensures Kept(ExampleItem() + [("stargazers_count", Int(4783))], InterestedItemsShort) == ExampleItem()
  {
    var item := ExampleItem();
    var star := ("stargazers_count", Int(4783));
    assert forall i :: 0 <= i < |item| ==> item[i].0 in InterestedItemsShort;
    KeptAll(item, InterestedItemsShort);
    KeptSnoc(item, star, InterestedItemsShort);
    assert star.0 !in InterestedItemsShort;
  }
}
