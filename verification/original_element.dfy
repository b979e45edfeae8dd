/**
 * The walk over pre-existing markup that seeds a "details" widget with its
 * summary and body HTML. The markup arrives already parsed into a tree of
 * named nodes; only the root and (at most) two levels below it are looked at.
 */
module OriginalElement {
  import opened Wrappers
  import opened Truthiness

  /** A node of the parsed markup: tag name, inner HTML and child nodes. An absent `html` is "". */
  datatype Node = Node(name: string, html: string, children: seq<Node>)

  /**
   * The object the parser returns. A field is `None` when the parser never
   * set that key; no other key can ever be set.
   */
  datatype Parsed = Parsed(summary: Option<string>, content: Option<string>)

  const SummaryTag := "summary"
  const DetailsTag := "details"
  const WidgetTag := "djt-details"

  /*
   * Reference definitions, stated independently of the parser's loop.
   */

  /** The in-order concatenation of the HTML of every child that is not a `summary`. */
  function Contents(items: seq<Node>): string {
    if |items| == 0 then ""
    else (if items[0].name != SummaryTag then items[0].html else "") + Contents(items[1..])
  }

  /** The HTML of the last `summary` child, if there is one. */
  function LastSummary(items: seq<Node>): (r: Option<string>)
    ensures r.None? <==> forall i :: 0 <= i < |items| ==> items[i].name != SummaryTag
    ensures r.Some? ==>
      exists i :: 0 <= i < |items| && items[i].name == SummaryTag && items[i].html == r.value
        && forall j :: i < j < |items| ==> items[j].name != SummaryTag
  {
    if |items| == 0 then None
    else
      var rest := LastSummary(items[1..]);
      if rest.Some? then
        var i :| 1 <= i + 1 <= |items| - 1 && items[1..][i].name == SummaryTag && items[1..][i].html == rest.value
          && forall j :: i < j < |items| - 1 ==> items[1..][j].name != SummaryTag;
        assert items[i + 1] == items[1..][i];
        assert forall j :: i + 1 < j < |items| ==> items[j] == items[1..][j - 1];
        rest
      else if items[0].name == SummaryTag then
        assert forall j :: 0 < j < |items| ==> items[j] == items[1..][j - 1];
        Some(items[0].html)
      else
        assert forall j :: 0 < j < |items| ==> items[j] == items[1..][j - 1];
        None
  }

  /** The empty string reads as "no value", as JavaScript truthiness has it. */
  function NonEmpty(s: string): (r: Option<string>)
    ensures r.Some? <==> s != ""
    ensures r.Some? ==> r.value == s
  {
    if TruthyString(s) then Some(s) else None
  }

  /*
   * The parser.
   */

  /**
   * One turn of the details-level loop: a `summary` child replaces the
   * summary; any other child with non-empty HTML is appended to the content.
   */
  function Absorb(acc: Option<Parsed>, item: Node): Option<Parsed> {
    if item.name == SummaryTag then
      match acc
      case Some(p) => Some(p.(summary := Some(item.html)))
      case None => Some(Parsed(Some(item.html), None))
    else if TruthyString(item.html) then
      match acc
      case None => Some(Parsed(None, Some(item.html)))
      case Some(p) =>
        if TruthyOption(p.content) then Some(p.(content := Some(p.content.value + item.html)))
        else Some(p.(content := Some(item.html)))
    else acc
  }

  lemma {:induction false} ContentsSnoc(items: seq<Node>, x: Node)
    ensures Contents(items + [x]) == Contents(items) + (if x.name != SummaryTag then x.html else "")
    decreases |items|
  {
    if |items| == 0 {
      assert items + [x] == [x];
      assert [x][1..] == [];
    } else {
      assert (items + [x])[1..] == items[1..] + [x];
      ContentsSnoc(items[1..], x);
    }
  }

  lemma {:induction false} LastSummarySnoc(items: seq<Node>, x: Node)
    ensures LastSummary(items + [x]) == (if x.name == SummaryTag then Some(x.html) else LastSummary(items))
    decreases |items|
  {
    if |items| == 0 {
      assert items + [x] == [x];
      assert [x][1..] == [];
    } else {
      assert (items + [x])[1..] == items[1..] + [x];
      LastSummarySnoc(items[1..], x);
    }
  }

  /** The concatenated content is empty exactly when every non-`summary` child has empty HTML. */
  lemma {:induction false} ContentsEmpty(items: seq<Node>)
    ensures Contents(items) == "" <==> forall i :: 0 <= i < |items| ==> items[i].name == SummaryTag || items[i].html == ""
    decreases |items|
  {
    if |items| > 0 {
      ContentsEmpty(items[1..]);
      assert forall j :: 0 < j < |items| ==> items[j] == items[1..][j - 1];
    }
  }

  /**
   * The details-level parser: the loop over `items`, as a fold from the
   * left. The result is absent exactly when no child is a `summary` and no
   * other child has HTML; otherwise its summary is the last `summary`
   * child's HTML and its content the concatenation of the other children's
   * HTML, the key left out while that concatenation is empty.
   */
  function ParseItems(items: seq<Node>): (r: Option<Parsed>)
    ensures r.None? <==> forall i :: 0 <= i < |items| ==> items[i].name != SummaryTag && items[i].html == ""
    ensures r.Some? ==> r.value.summary == LastSummary(items)
    ensures r.Some? ==> r.value.content == NonEmpty(Contents(items))
  {
    if |items| == 0 then None
    else
      var front := items[..|items| - 1];
      var x := items[|items| - 1];
      assert items == front + [x];
      assert forall i :: 0 <= i < |front| ==> front[i] == items[i];
      ContentsSnoc(front, x);
      ContentsEmpty(front);
      LastSummarySnoc(front, x);
      var acc := ParseItems(front);
      if x.name != SummaryTag && x.html != "" && acc.Some? && acc.value.content.Some? then
        assert Contents(items) == acc.value.content.value + x.html;
        Absorb(acc, x)
      else if x.name != SummaryTag && x.html != "" then
        assert Contents(front) == "";
        assert Contents(items) == x.html;
        Absorb(acc, x)
      else
        assert Contents(items) == Contents(front);
        Absorb(acc, x)
  }

  /** The children of the first `details` child, if there is one (the loop with `break`). */
  function FirstDetails(items: seq<Node>): (r: Option<seq<Node>>)
    ensures r.None? <==> forall i :: 0 <= i < |items| ==> items[i].name != DetailsTag
    ensures r.Some? ==>
      exists i :: 0 <= i < |items| && items[i].name == DetailsTag && items[i].children == r.value
        && forall j :: 0 <= j < i ==> items[j].name != DetailsTag
  {
    if |items| == 0 then None
    else if items[0].name == DetailsTag then Some(items[0].children)
    else
      var rest := FirstDetails(items[1..]);
      assert forall j :: 0 < j < |items| ==> items[j] == items[1..][j - 1];
      if rest.Some? then
        var i :| 0 <= i < |items| - 1 && items[1..][i].name == DetailsTag && items[1..][i].children == rest.value
          && forall j :: 0 <= j < i ==> items[1..][j].name != DetailsTag;
        assert items[i + 1] == items[1..][i];
        rest
      else rest
  }

  /**
   * The widget-level parser: parse the children of the first `details`
   * child, or the items themselves when there is none. A child list is an
   * array, always truthy, so an empty one still takes precedence.
   */
  function ParseWidgetItems(items: seq<Node>): (r: Option<Parsed>)
    ensures (forall i :: 0 <= i < |items| ==> items[i].name != DetailsTag) ==> r == ParseItems(items)
    ensures forall i :: (0 <= i < |items| && items[i].name == DetailsTag
      && forall j :: 0 <= j < i ==> items[j].name != DetailsTag) ==> r == ParseItems(items[i].children)
  {
    match FirstDetails(items)
    case Some(inner) =>
      var k :| 0 <= k < |items| && items[k].name == DetailsTag && items[k].children == inner
        && forall j :: 0 <= j < k ==> items[j].name != DetailsTag;
      assert forall i :: (0 <= i < |items| && items[i].name == DetailsTag
        && forall j :: 0 <= j < i ==> items[j].name != DetailsTag) ==> i == k;
      ParseItems(inner)
    case None => ParseItems(items)
  }

  /** Entry point: dispatch on the root's tag name. */
  function Parse(data: Node): (r: Option<Parsed>)
    ensures data.name != DetailsTag && data.name != WidgetTag ==> r.None?
    ensures data.name == DetailsTag ==> r == ParseItems(data.children)
    ensures data.name == WidgetTag ==> r == ParseItems(FirstDetails(data.children).GetOr(data.children))
  {
    if data.name == DetailsTag then ParseItems(data.children)
    else if data.name == WidgetTag then ParseWidgetItems(data.children)
    else None
  }

  /*
   * Properties.
   */

  /** The first `details` child wins, whatever follows it. */
  lemma {:induction false} FirstDetailsSkips(before: seq<Node>, d: Node, after: seq<Node>)
    requires forall i :: 0 <= i < |before| ==> before[i].name != DetailsTag
    requires d.name == DetailsTag
    ensures FirstDetails(before + [d] + after) == Some(d.children)
    decreases |before|
  {
    var items := before + [d] + after;
    if |before| == 0 {
      assert items[0] == d;
    } else {
      assert items[0] == before[0];
      assert items[1..] == before[1..] + [d] + after;
      FirstDetailsSkips(before[1..], d, after);
    }
  }

  /** `details` children after the first one are never looked at. */
  lemma LaterDetailsIgnored(before: seq<Node>, d: Node, after: seq<Node>, html: string)
    requires forall i :: 0 <= i < |before| ==> before[i].name != DetailsTag
    requires d.name == DetailsTag
    ensures Parse(Node(WidgetTag, html, before + [d] + after)) == ParseItems(d.children)
  {
    FirstDetailsSkips(before, d, after);
  }

  /** A widget root without a `details` child is parsed as if it were a `details` root. */
  lemma WidgetWithoutDetails(items: seq<Node>, html: string)
    requires forall i :: 0 <= i < |items| ==> items[i].name != DetailsTag
    ensures Parse(Node(WidgetTag, html, items)) == Parse(Node(DetailsTag, html, items))
  {
  }

  /** Grandchildren are never visited: only each child's name and HTML matter. */
  lemma {:induction false} GrandchildrenIgnored(items: seq<Node>, others: seq<Node>)
    requires |items| == |others|
    requires forall i :: 0 <= i < |items| ==> items[i].name == others[i].name && items[i].html == others[i].html
    ensures ParseItems(items) == ParseItems(others)
    decreases |items|
  {
    if |items| > 0 {
      var n := |items| - 1;
      assert forall i :: 0 <= i < n ==> items[..n][i] == items[i] && others[..n][i] == others[i];
      GrandchildrenIgnored(items[..n], others[..n]);
      assert ParseItems(items) == Absorb(ParseItems(items[..n]), items[n]);
      assert ParseItems(others) == Absorb(ParseItems(others[..n]), others[n]);
    }
  }

  /** A `summary` child's HTML is assigned even when it is empty, so the result is then present. */
  lemma EmptySummaryStillCounts(items: seq<Node>, i: nat)
    requires i < |items| && items[i].name == SummaryTag && items[i].html == ""
    requires forall j :: i < j < |items| ==> items[j].name != SummaryTag
    ensures ParseItems(items) == Some(Parsed(Some(""), NonEmpty(Contents(items))))
  {
    var k :| 0 <= k < |items| && items[k].name == SummaryTag && items[k].html == LastSummary(items).value
      && forall j :: k < j < |items| ==> items[j].name != SummaryTag;
    assert k == i;
  }

  /** The worked example of a bare `details` fragment with one summary and two paragraphs. */
  lemma DetailsExample()
    ensures Parse(Node(DetailsTag, "", [Node(SummaryTag, "S", []), Node("p", "B1", []), Node("p", "B2", [])]))
         == Some(Parsed(Some("S"), Some("B1B2")))
  {
    var items := [Node(SummaryTag, "S", []), Node("p", "B1", []), Node("p", "B2", [])];
    assert items[1..][1..] == items[2..];
    assert items[2..][1..] == [];
    assert Contents(items[2..]) == "B2";
    assert Contents(items[1..]) == "B1B2";
    assert LastSummary(items[2..]).None?;
    assert LastSummary(items[1..]).None?;
    assert LastSummary(items) == Some("S");
    assert items[0].name == SummaryTag;
    assert ParseItems(items).Some?;
    assert NonEmpty(Contents(items)) == Some("B1B2");
  }

  /** The worked example of a fragment this widget rendered itself, wrapping a native `details` node. */
  lemma WidgetExample()
    ensures Parse(Node(WidgetTag, "", [Node(DetailsTag, "", [Node(SummaryTag, "S", [])])]))
         == Some(Parsed(Some("S"), None))
  {
    var inner := [Node(SummaryTag, "S", [])];
    assert Contents(inner) == "";
  }
}
