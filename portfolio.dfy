/** The portfolio section (assets/js/modules/portfolio.js): the category
    filter with its single active filter button, the delayed hiding of
    filtered-out items, and the single active tab. */
module Portfolio {
  import opened Wrappers

  // ---------------------------------------------------------------------------
  // `split(' ')` and the filter rule

  /** `s.split(' ')`, with `current` the token read so far. */
  function SplitFrom(s: string, current: string): (parts: seq<string>)
    ensures |parts| >= 1
    decreases |s|
  {
    if s == [] then [current]
    else if s[0] == ' ' then [current] + SplitFrom(s[1..], "")
    else SplitFrom(s[1..], current + [s[0]])
  }

  /** `s.split(' ')`: always at least one token, empty ones included. */
  function Split(s: string): seq<string> {
    SplitFrom(s, "")
  }

  /** `parts.join(' ')`. */
  function Join(parts: seq<string>): string
    requires |parts| >= 1
  {
    if |parts| == 1 then parts[0] else parts[0] + " " + Join(parts[1..])
  }

  predicate SpaceFree(parts: seq<string>) {
    forall i :: 0 <= i < |parts| ==> ' ' !in parts[i]
  }

  lemma {:induction false} SplitFromJoin(s: string, current: string)
    requires ' ' !in current
    ensures SpaceFree(SplitFrom(s, current))
    ensures Join(SplitFrom(s, current)) == current + s
    decreases |s|
  {
    if s == [] {
      assert current + s == current;
    } else if s[0] == ' ' {
      SplitFromJoin(s[1..], "");
      assert s == [' '] + s[1..];
    } else {
      SplitFromJoin(s[1..], current + [s[0]]);
      assert current + s == current + [s[0]] + s[1..];
    }
  }

  /** Splitting loses nothing: the tokens hold no space and join back to the
      attribute value. */
  lemma JoinSplit(s: string)
    ensures SpaceFree(Split(s))
    ensures Join(Split(s)) == s
  {
    SplitFromJoin(s, "");
  }

  lemma {:induction false} SplitFromToken(t: string, rest: string, current: string)
    requires ' ' !in t && ' ' !in current
    ensures SplitFrom(t + rest, current) == SplitFrom(rest, current + t)
    decreases |t|
  {
    if t == [] {
      assert t + rest == rest && current + t == current;
    } else {
      assert (t + rest)[0] == t[0] && (t + rest)[1..] == t[1..] + rest;
      SplitFromToken(t[1..], rest, current + [t[0]]);
      assert current + [t[0]] + t[1..] == current + t;
    }
  }

  /** And the other way: space-free tokens joined by single spaces split back
      into exactly those tokens. */
  lemma {:induction false} SplitJoin(parts: seq<string>)
    requires |parts| >= 1 && SpaceFree(parts)
    ensures Split(Join(parts)) == parts
  {
    assert "" + parts[0] == parts[0];
    if |parts| == 1 {
      SplitFromToken(parts[0], "", "");
      assert parts[0] + "" == parts[0];
    } else {
      var rest := Join(parts[1..]);
      assert Join(parts) == parts[0] + (" " + rest);
      SplitFromToken(parts[0], " " + rest, "");
      assert (" " + rest)[1..] == rest;
      SplitJoin(parts[1..]);
      assert [parts[0]] + parts[1..] == parts;
    }
  }

  /** `filterPortfolio`'s rule for one item: the filter is `'all'`, or it is
      one of the space-separated tokens of `data-category` (a missing
      attribute has no tokens; a missing `data-filter` matches nothing). */
  predicate Shows(filter: Option<string>, category: Option<string>) {
    filter == Some("all") || (filter.Some? && category.Some? && filter.value in Split(category.value))
  }

  /** Stated on the category's words: with `category` the words joined by
      single spaces, an item shows iff the filter is `'all'` or one of them. */
  lemma ShowsIffAmongWords(filter: string, words: seq<string>)
    requires |words| >= 1 && SpaceFree(words)
    ensures Shows(Some(filter), Some(Join(words))) <==> filter == "all" || filter in words
  {
    SplitJoin(words);
  }

  /** An item without `data-category` shows only under `'all'`; every item
      shows under `'all'`; a filter with a space shows only what `'all'` shows. */
  lemma ShowsEdgeCases(filter: Option<string>, category: Option<string>)
    ensures Shows(filter, None) <==> filter == Some("all")
    ensures Shows(Some("all"), category)
    ensures filter.Some? && ' ' in filter.value ==> !Shows(filter, category)
  {
    if category.Some? {
      JoinSplit(category.value);
    }
  }

  // ---------------------------------------------------------------------------
  // The page elements

  datatype Button = Button(filter: Option<string>, active: bool)

  /** How an item is laid out: not yet touched, `display: block`, or `display: none`. */
  datatype Display = Unstyled | Block | DisplayNone

  datatype Item = Item(category: Option<string>, filteredOut: bool, display: Display)

  datatype TabButton = TabButton(target: Option<string>, active: bool)
  datatype TabContent = TabContent(id: string, active: bool)

  /** `target + '-tab'`; a missing `data-tab` concatenates as `"null"`. */
  function TabId(target: Option<string>): (r: string)
    ensures |r| >= 4 && r[|r| - 4..] == "-tab"
    ensures r[..|r| - 4] == if target.Some? then target.value else "null"
  {
    (if target.Some? then target.value else "null") + "-tab"
  }

  /** An item after `filterPortfolio(filter)` has run over it (before any timer). */
  function Filtered(filter: Option<string>, item: Item): Item {
    if Shows(filter, item.category) then item.(filteredOut := false, display := Block)
    else item.(filteredOut := true)
  }

  /** Filtering keeps the category, marks exactly the items the rule hides,
      lays out the others as blocks and leaves a hidden item's layout to its timer. */
  lemma FilteredMarks(filter: Option<string>, item: Item)
    ensures Filtered(filter, item).category == item.category
    ensures Filtered(filter, item).filteredOut <==> !Shows(filter, item.category)
    ensures !Filtered(filter, item).filteredOut ==> Filtered(filter, item).display == Block
    ensures Filtered(filter, item).filteredOut ==> Filtered(filter, item).display == item.display
  {
  }

  /** The indices below `n` whose items `filter` hides, in order: the items
      `filterPortfolio` sets a 300 ms timer for, each once and in item order. */
  function HiddenBelow(filter: Option<string>, items: seq<Item>, n: nat): (r: seq<nat>)
    requires n <= |items|
    ensures forall j :: 0 <= j < |r| ==> r[j] < n
    ensures forall i, j :: 0 <= i < j < |r| ==> r[i] < r[j]
  {
    if n == 0 then [] else HiddenBelow(filter, items, n - 1) + (if Shows(filter, items[n - 1].category) then [] else [n - 1])
  }

  /** A hide timer is set for exactly the items the filter rule hides. */
  lemma {:induction false} HiddenBelowExactly(filter: Option<string>, items: seq<Item>, n: nat, k: nat)
    requires n <= |items|
    ensures k in HiddenBelow(filter, items, n) <==> k < n && !Shows(filter, items[k].category)
  {
    if n > 0 {
      var front := HiddenBelow(filter, items, n - 1);
      var hides := !Shows(filter, items[n - 1].category);
      var last: seq<nat> := if hides then [n - 1] else [];
      HiddenBelowExactly(filter, items, n - 1, k);
      assert HiddenBelow(filter, items, n) == front + last;
      if k == n - 1 {
        assert k !in front;
        assert k in last <==> hides;
      } else {
        assert k !in last;
      }
    }
  }

  class PortfolioManager {
    const buttons: array<Button>
    const items: array<Item>
    const tabButtons: array<TabButton>
    const tabContents: array<TabContent>
    var currentFilter: Option<string>
    /** The item of every 300 ms hide timer not yet fired, in the order set. */
    var pendingHides: seq<nat>

    ghost predicate Valid()
      reads this
    {
      forall k :: 0 <= k < |pendingHides| ==> pendingHides[k] < items.Length
    }

    /** The constructor and `init`: the elements are those on the page, and
        the filter starts as `'all'`. */
    constructor (buttons: array<Button>, items: array<Item>, tabButtons: array<TabButton>, tabContents: array<TabContent>)
      ensures Valid()
      ensures this.buttons == buttons && this.items == items
      ensures this.tabButtons == tabButtons && this.tabContents == tabContents
      ensures currentFilter == Some("all") && pendingHides == []
    {
      this.buttons := buttons;
      this.items := items;
      this.tabButtons := tabButtons;
      this.tabContents := tabContents;
      currentFilter := Some("all");
      pendingHides := [];
    }

    /** `setActiveFilter`: exactly button `b` is active afterwards, and the
        filter is recorded. */
    method SetActiveFilter(b: nat, filter: Option<string>)
      requires b < buttons.Length
      modifies buttons, this`currentFilter
      ensures forall j :: 0 <= j < buttons.Length ==> buttons[j] == old(buttons[j]).(active := j == b)
      ensures currentFilter == filter
    {
      var j := 0;
      while j < buttons.Length
        invariant 0 <= j <= buttons.Length
        invariant forall k :: 0 <= k < j ==> buttons[k] == old(buttons[k]).(active := false)
        invariant forall k :: j <= k < buttons.Length ==> buttons[k] == old(buttons[k])
      {
        buttons[j] := buttons[j].(active := false);
        j := j + 1;
      }
      buttons[b] := buttons[b].(active := true);
      currentFilter := filter;
    }

    /** The loop body of `filterPortfolio` for item `i`: it is shown or
        marked, and `hides` says whether a hide timer is set for it. */
    method FilterItem(filter: Option<string>, i: nat) returns (hides: bool)
      requires i < items.Length
      modifies items
      ensures items[i] == Filtered(filter, old(items[i]))
      ensures forall k :: 0 <= k < items.Length && k != i ==> items[k] == old(items[k])
      ensures hides <==> !Shows(filter, old(items[i]).category)
    {
      var item := items[i];
      items[i] := Filtered(filter, item);
      hides := !Shows(filter, item.category);
    }

    /** `filterPortfolio`: every item is shown or marked filtered-out by
        `Shows`, and one hide timer is set per item marked. */
    method FilterPortfolio(filter: Option<string>)
      requires Valid()
      modifies items, this`pendingHides
      ensures Valid()
      ensures forall i :: 0 <= i < items.Length ==> items[i] == Filtered(filter, old(items[i]))
      ensures pendingHides == old(pendingHides) + HiddenBelow(filter, old(items[..]), items.Length)
    {
      ghost var before := items[..];
      var i: nat := 0;
      var hidden: seq<nat> := [];
      while i < items.Length
        invariant i <= items.Length
        invariant forall k :: 0 <= k < i ==> items[k] == Filtered(filter, before[k])
        invariant forall k :: i <= k < items.Length ==> items[k] == before[k]
        invariant hidden == HiddenBelow(filter, before, i)
        invariant pendingHides == old(pendingHides)
      {
        var hides := FilterItem(filter, i);
        if hides {
          hidden := hidden + [i];
        }
        i := i + 1;
      }
      pendingHides := pendingHides + hidden;
    }

    /** A filter button's click handler: its own `data-filter` becomes the
        active filter and is applied. */
    method ClickFilter(b: nat)
      requires Valid() && b < buttons.Length
      modifies buttons, items, this`currentFilter, this`pendingHides
      ensures Valid()
      ensures currentFilter == old(buttons[b].filter)
      ensures forall j :: 0 <= j < buttons.Length ==> buttons[j] == old(buttons[j]).(active := j == b)
      ensures forall i :: 0 <= i < items.Length ==> items[i] == Filtered(old(buttons[b].filter), old(items[i]))
      ensures pendingHides == old(pendingHides) + HiddenBelow(old(buttons[b].filter), old(items[..]), items.Length)
    {
      var filter := buttons[b].filter;
      SetActiveFilter(b, filter);
      FilterPortfolio(filter);
    }

    /** The `k`-th pending hide timer fires: its item gets `display: none`
        only if it is still filtered out, so showing it again in between
        cancels the hide. */
    method HideTimerFires(k: nat)
      requires Valid() && k < |pendingHides|
      modifies items, this`pendingHides
      ensures Valid()
      ensures pendingHides == old(pendingHides[..k] + pendingHides[k + 1..])
      ensures var i := old(pendingHides[k]);
        && items[i] == (if old(items[i].filteredOut) then old(items[i]).(display := DisplayNone) else old(items[i]))
        && forall j :: 0 <= j < items.Length && j != i ==> items[j] == old(items[j])
    {
      var i := pendingHides[k];
      pendingHides := pendingHides[..k] + pendingHides[k + 1..];
      if items[i].filteredOut {
        items[i] := items[i].(display := DisplayNone);
      }
    }

    /** A tab button's click handler: exactly that tab button is active, and
        exactly the contents whose id is its `data-tab` plus `-tab`. */
    method ClickTab(b: nat)
      requires b < tabButtons.Length
      modifies tabButtons, tabContents
      ensures forall j :: 0 <= j < tabButtons.Length ==> tabButtons[j] == old(tabButtons[j]).(active := j == b)
      ensures forall j :: 0 <= j < tabContents.Length ==>
                tabContents[j] == old(tabContents[j]).(active := old(tabContents[j]).id == TabId(old(tabButtons[b].target)))
    {
      var target := tabButtons[b].target;
      var j := 0;
      while j < tabButtons.Length
        invariant 0 <= j <= tabButtons.Length
        invariant forall k :: 0 <= k < j ==> tabButtons[k] == old(tabButtons[k]).(active := false)
        invariant forall k :: j <= k < tabButtons.Length ==> tabButtons[k] == old(tabButtons[k])
        invariant tabContents[..] == old(tabContents[..])
      {
        tabButtons[j] := tabButtons[j].(active := false);
        j := j + 1;
      }
      tabButtons[b] := tabButtons[b].(active := true);
      j := 0;
      while j < tabContents.Length
        invariant 0 <= j <= tabContents.Length
        invariant forall k :: 0 <= k < tabButtons.Length ==> tabButtons[k] == old(tabButtons[k]).(active := k == b)
        invariant forall k :: 0 <= k < j ==> tabContents[k] == old(tabContents[k]).(active := old(tabContents[k]).id == TabId(target))
        invariant forall k :: j <= k < tabContents.Length ==> tabContents[k] == old(tabContents[k])
      {
        tabContents[j] := tabContents[j].(active := tabContents[j].id == TabId(target));
        j := j + 1;
      }
    }
  }

  /** A filter click followed by a click on another filter that shows the
      item again: when the first click's hide timer for that item fires, the
      item stays visible. */
  method ReshowCancelsHide(p: PortfolioManager, first: nat, second: nat, i: nat)
    requires p.Valid() && first < p.buttons.Length && second < p.buttons.Length && i < p.items.Length
    requires !Shows(p.buttons[first].filter, p.items[i].category)
    requires Shows(p.buttons[second].filter, p.items[i].category)
    requires p.pendingHides == []
    modifies p.buttons, p.items, p
    ensures p.items[i].display == Block && !p.items[i].filteredOut
  {
    ghost var firstFilter := p.buttons[first].filter;
    ghost var before := p.items[..];
    p.ClickFilter(first);
    ghost var afterFirst := p.pendingHides;
    HiddenBelowExactly(firstFilter, before, p.items.Length, i);
    assert i in afterFirst;
    p.ClickFilter(second);
    assert i in p.pendingHides by {
      assert p.pendingHides[..|afterFirst|] == afterFirst;
    }
    var k :| 0 <= k < |p.pendingHides| && p.pendingHides[k] == i;
    p.HideTimerFires(k);
  }
}
