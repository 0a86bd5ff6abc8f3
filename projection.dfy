/** Rendering of response items as console lines, common to both
    command-line front ends: the "k => v" line, print_item, the filter a
    print_keeper applies, the block it prints per item, and the lines a
    search prints for a whole response body. */
module Projection {
  import opened Json

  /** `"=" * 20`, the line that opens every item block. */
  const Separator: string := "===================="

  /** What a search prints for a body that is neither a dict nor a list. */
  const NoResultFound: string := "No result found!"

  /** The line `f"{k} => {v}"`. */
  function Line(k: string, v: Value): string {
    k + " => " + ValueText(v)
  }

  /** What `print(f"Searching URL: {url}")` prints. */
  function SearchingLine(url: string): string {
    "Searching URL: " + url
  }

  lemma SeparatorShape()
    ensures |Separator| == 20 && forall i :: 0 <= i < 20 ==> Separator[i] == '='
  {
  }

  /** A field line can never be mistaken for a separator: it holds a space. */
  lemma LineIsNotSeparator(k: string, v: Value)
    ensures Line(k, v) != Separator
  {
    var l := Line(k, v);
    assert l[|k|] == ' ';
    if |l| == 20 {
      assert Separator[|k|] == '=';
    }
  }

  lemma SearchingLineIsNotSeparator(url: string)
    ensures SearchingLine(url) != Separator
  {
    assert SearchingLine(url)[0] == 'S';
  }

  // ---------------------------------------------------------------------
  // Lines of a sequence of pairs (print_item)
  // ---------------------------------------------------------------------

  /** One "k => v" line per pair, in the pairs' order. */
  function PairLines(ps: Item): (lines: seq<string>)
    ensures |lines| == |ps|
  {
    if ps == [] then []
    else PairLines(ps[..|ps| - 1]) + [Line(ps[|ps| - 1].0, ps[|ps| - 1].1)]
  }

  /** The i-th line is the line of the i-th pair. */
  lemma {:induction false} PairLinesAt(ps: Item, i: int)
    requires 0 <= i < |ps|
    ensures PairLines(ps)[i] == Line(ps[i].0, ps[i].1)
  {
    if i < |ps| - 1 {
      PairLinesAt(ps[..|ps| - 1], i);
    }
  }

  lemma PairLinesHaveNoSeparator(ps: Item)
    ensures Separator !in PairLines(ps)
  {
    forall i | 0 <= i < |ps| ensures PairLines(ps)[i] != Separator {
      PairLinesAt(ps, i);
      LineIsNotSeparator(ps[i].0, ps[i].1);
    }
  }

  /** One more pair adds its line at the end. */
  lemma PairLinesSnoc(ps: Item, p: (string, Value))
    ensures PairLines(ps + [p]) == PairLines(ps) + [Line(p.0, p.1)]
  {
    assert (ps + [p])[..|ps|] == ps;
  }

  /** print_item: echoes every pair of `item`, unfiltered and in order. */
  method PrintItem(item: Item) returns (lines: seq<string>)
    requires DistinctKeys(item)
    ensures lines == PairLines(item)
  {
    lines := [];
    var i := 0;
    while i < |item|
      invariant 0 <= i <= |item|
      invariant lines == PairLines(item[..i])
    {
      var (k, v) := item[i];
      assert item[..i + 1] == item[..i] + [(k, v)];
      PairLinesSnoc(item[..i], (k, v));
      lines := lines + [Line(k, v)];
      i := i + 1;
    }
    assert item[..i] == item;
  }

  // ---------------------------------------------------------------------
  // The field filter of print_keeper
  // ---------------------------------------------------------------------

  /** The pairs of `ps` whose key is in `keeper`, in their order in `ps`. */
  function Kept(ps: Item, keeper: set<string>): Item {
    if ps == [] then []
    else Kept(ps[..|ps| - 1], keeper) + (if ps[|ps| - 1].0 in keeper then [ps[|ps| - 1]] else [])
  }

  /** One more pair is kept, at the end, exactly when its key is in the
      field set. */
  lemma KeptSnoc(ps: Item, p: (string, Value), keeper: set<string>)
    ensures Kept(ps + [p], keeper) == Kept(ps, keeper) + (if p.0 in keeper then [p] else [])
  {
    assert (ps + [p])[..|ps|] == ps;
  }

  /** A pair survives the filter exactly when it is in the item and its
      key is in the field set. */
  lemma {:induction false} KeptMembers(ps: Item, keeper: set<string>, p: (string, Value))
    ensures p in Kept(ps, keeper) <==> p in ps && p.0 in keeper
  {
    if ps != [] {
      var init := ps[..|ps| - 1];
      KeptMembers(init, keeper, p);
      assert ps == init + [ps[|ps| - 1]];
    }
  }

  /** The kept pairs of a JSON object again have distinct keys: no field
      is printed twice. */
  lemma {:induction false} KeptDistinct(ps: Item, keeper: set<string>)
    requires DistinctKeys(ps)
    ensures DistinctKeys(Kept(ps, keeper))
  {
    if ps != [] {
      var init := ps[..|ps| - 1];
      var last := ps[|ps| - 1];
      assert DistinctKeys(init);
      KeptDistinct(init, keeper);
      var kept := Kept(init, keeper);
      if last.0 in keeper {
        forall i | 0 <= i < |kept| ensures kept[i].0 != last.0 {
          KeptMembers(init, keeper, kept[i]);
          var j :| 0 <= j < |init| && init[j] == kept[i];
          assert ps[j] == init[j];
        }
        assert Kept(ps, keeper) == kept + [last];
      }
    }
  }

  /** Filtering keeps the item order: the kept pairs of a concatenation
      are those of the first part followed by those of the second. */
  lemma {:induction false} KeptAppend(a: Item, b: Item, keeper: set<string>)
    ensures Kept(a + b, keeper) == Kept(a, keeper) + Kept(b, keeper)
    decreases |b|
  {
    if b == [] {
      assert a + b == a;
    } else {
      var init := b[..|b| - 1];
      assert (a + b)[..|a + b| - 1] == a + init;
      KeptAppend(a, init, keeper);
    }
  }

  /** Filtering by one field set and then by another is filtering by
      their intersection. */
  lemma {:induction false} KeptTwice(ps: Item, outer: set<string>, inner: set<string>)
    ensures Kept(Kept(ps, outer), inner) == Kept(ps, outer * inner)
  {
    if ps != [] {
      var init := ps[..|ps| - 1];
      var last := ps[|ps| - 1];
      var tail := if last.0 in outer then [last] else [];
      KeptTwice(init, outer, inner);
      KeptAppend(Kept(init, outer), tail, inner);
      assert Kept(tail, inner) == if last.0 in outer && last.0 in inner then [last] else [] by {
        if tail != [] {
          assert tail[..0] == [];
        }
      }
    }
  }

  /** An item whose every key is in the field set passes unchanged. */
  lemma {:induction false} KeptAll(ps: Item, keeper: set<string>)
    requires forall i :: 0 <= i < |ps| ==> ps[i].0 in keeper
    ensures Kept(ps, keeper) == ps
  {
    if ps != [] {
      KeptAll(ps[..|ps| - 1], keeper);
    }
  }

  /** An item with none of the fields of the set loses every pair. */
  lemma {:induction false} KeptNone(ps: Item, keeper: set<string>)
    requires forall i :: 0 <= i < |ps| ==> ps[i].0 !in keeper
    ensures Kept(ps, keeper) == []
  {
    if ps != [] {
      KeptNone(ps[..|ps| - 1], keeper);
    }
  }

  // ---------------------------------------------------------------------
  // Item blocks and whole bodies
  // ---------------------------------------------------------------------

  /** The block print_keeper prints for one item. */
  function Block(item: Item, keeper: set<string>): seq<string> {
    [Separator] + PairLines(Kept(item, keeper))
  }

  /** A block opens with the separator, which is its only separator line,
      and holds one line per kept pair. */
  lemma BlockShape(item: Item, keeper: set<string>)
    ensures |Block(item, keeper)| == 1 + |Kept(item, keeper)|
    ensures Block(item, keeper)[0] == Separator
    ensures Separator !in Block(item, keeper)[1..]
  {
    PairLinesHaveNoSeparator(Kept(item, keeper));
    assert Block(item, keeper)[1..] == PairLines(Kept(item, keeper));
  }

  /** The blocks of several items, one after another. */
  function Blocks(items: seq<Item>, keeper: set<string>): seq<string> {
    if items == [] then []
    else Blocks(items[..|items| - 1], keeper) + Block(items[|items| - 1], keeper)
  }

  /** One more item adds its block at the end. */
  lemma BlocksSnoc(items: seq<Item>, item: Item, keeper: set<string>)
    ensures Blocks(items + [item], keeper) == Blocks(items, keeper) + Block(item, keeper)
  {
    assert (items + [item])[..|items|] == items;
  }

  /** The blocks of a concatenation are the blocks of its parts in order. */
  lemma {:induction false} BlocksAppend(a: seq<Item>, b: seq<Item>, keeper: set<string>)
    ensures Blocks(a + b, keeper) == Blocks(a, keeper) + Blocks(b, keeper)
    decreases |b|
  {
    if b == [] {
      assert a + b == a;
    } else {
      var init := b[..|b| - 1];
      var last := b[|b| - 1];
      assert a + b == (a + init) + [last];
      assert b == init + [last];
      BlocksSnoc(a + init, last, keeper);
      BlocksSnoc(init, last, keeper);
      BlocksAppend(a, init, keeper);
    }
  }

  /** Exactly one separator line per item: the output of several items
      falls apart into one block per item. */
  lemma {:induction false} BlocksSeparators(items: seq<Item>, keeper: set<string>)
    ensures multiset(Blocks(items, keeper))[Separator] == |items|
  {
    if items != [] {
      BlocksSeparators(items[..|items| - 1], keeper);
      PairLinesHaveNoSeparator(Kept(items[|items| - 1], keeper));
    }
  }

  /** The lines a search prints for a successfully fetched body: the two
      summary lines of an envelope and then its item blocks, the item
      blocks of a bare list, or the no-result line. */
  function RenderBody(body: Body, keeper: set<string>): seq<string> {
    match body
    case Envelope(total, incomplete, items) =>
      [Line("total", total), Line("incomplete_results", incomplete)] + Blocks(items, keeper)
    case List(elements) => Blocks(elements, keeper)
    case Other => [NoResultFound]
  }

  /** Number of blocks in a rendered body: one per item of an envelope or
      list, none for any other body. */
  lemma RenderBodyBlockCount(body: Body, keeper: set<string>)
    ensures multiset(RenderBody(body, keeper))[Separator] ==
      match body
      case Envelope(_, _, items) => |items|
      case List(elements) => |elements|
      case Other => 0
  {
    match body
    case Envelope(total, incomplete, items) =>
      BlocksSeparators(items, keeper);
      LineIsNotSeparator("total", total);
      LineIsNotSeparator("incomplete_results", incomplete);
    case List(elements) =>
      BlocksSeparators(elements, keeper);
    case Other =>
  }

  /** A search of a successful envelope reply prints the URL line and the
      two summary lines before its first item block, and as many blocks as
      items. */
  lemma EnvelopeSummaryFirst(url: string, total: Value, incomplete: Value, items: seq<Item>, keeper: set<string>)
    ensures var out := [SearchingLine(url)] + RenderBody(Envelope(total, incomplete, items), keeper);
      && |out| >= 3
      && out[1] == Line("total", total)
      && out[2] == Line("incomplete_results", incomplete)
      && Separator !in out[..3]
      && multiset(out)[Separator] == |items|
  {
    var body := Envelope(total, incomplete, items);
    var rest := RenderBody(body, keeper);
    var out := [SearchingLine(url)] + rest;
    RenderBodyBlockCount(body, keeper);
    LineIsNotSeparator("total", total);
    LineIsNotSeparator("incomplete_results", incomplete);
    SearchingLineIsNotSeparator(url);
    assert out[..3] == [SearchingLine(url), rest[0], rest[1]];
    assert multiset(out) == multiset([SearchingLine(url)]) + multiset(rest);
  }

  /** An envelope prints its summary before every item block, and one
      more item adds exactly its block at the end. */
  lemma RenderEnvelopeExtends(total: Value, incomplete: Value, items: seq<Item>, item: Item, keeper: set<string>)
    ensures RenderBody(Envelope(total, incomplete, items + [item]), keeper) ==
            RenderBody(Envelope(total, incomplete, items), keeper) + Block(item, keeper)
  {
    BlocksSnoc(items, item, keeper);
  }

  /** An envelope without items prints only its two summary lines. */
  lemma RenderEmptyEnvelope(total: Value, incomplete: Value, keeper: set<string>)
    ensures RenderBody(Envelope(total, incomplete, []), keeper) ==
            ["total => " + ValueText(total), "incomplete_results => " + ValueText(incomplete)]
  {
    assert "total" + " => " == "total => ";
    assert "incomplete_results" + " => " == "incomplete_results => ";
  }
}
