/** `ListGenerator`: renders a nested `MarkdownList` into indented lines.

    The renderer walks the elements of a list in order. Two behaviours of the
    original are kept on purpose:
    - the ordered number of a leaf is its position among ALL its siblings, sublists
      included, so numbers skip after a sublist;
    - the indentation level is incremented in place before recursing into a sublist,
      so every later sibling stays one level deeper. */
module ListGenerator {
  import opened Wrappers
  import opened Strings

  /** An element of a `MarkdownList`: a text leaf or a nested list. */
  datatype Item = Leaf(text: string) | Sub(items: seq<Item>)

  /** Where and how one leaf is rendered: indentation level, symbol, untrimmed text. */
  datatype Entry = Entry(level: nat, symbol: string, text: string)

  function ItemSize(x: Item): (n: nat)
    ensures n >= 1
  {
    match x
    case Leaf(_) => 1
    case Sub(xs) => 1 + ItemsSize(xs)
  }

  function ItemsSize(xs: seq<Item>): nat
  {
    if |xs| == 0 then 0 else ItemsSize(xs[..|xs| - 1]) + ItemSize(xs[|xs| - 1])
  }

  /** Number of sublist elements among `xs` (not counting deeper ones). */
  function Sublists(xs: seq<Item>): nat
  {
    if |xs| == 0 then 0 else Sublists(xs[..|xs| - 1]) + (if xs[|xs| - 1].Sub? then 1 else 0)
  }

  /** The texts of all leaves, depth-first, in pre-order. */
  function Leaves(xs: seq<Item>): seq<string>
    decreases ItemsSize(xs), 1
  {
    if |xs| == 0 then [] else Leaves(xs[..|xs| - 1]) + LeavesOf(xs[|xs| - 1])
  }

  function LeavesOf(x: Item): seq<string>
    decreases ItemSize(x), 0
  {
    match x
    case Leaf(t) => [t]
    case Sub(xs) => Leaves(xs)
  }

  /** The symbol of the leaf at position `index` of its list: the given symbol for an
      unordered list that has one, otherwise `index + 1` followed by a dot. */
  function Symbol(ordered: bool, symbol: Option<string>, index: nat): (s: string)
    ensures !ordered && symbol.Some? ==> s == symbol.value
    ensures ordered || symbol.None? ==> s == NatToString(index + 1) + "."
  {
    if !ordered && symbol.Some? then symbol.value else NatToString(index + 1) + "."
  }

  /** `getListItem`: `4 * level` spaces, the symbol, one space, the trimmed text. */
  function GetListItem(text: string, level: nat, symbol: string): (line: string)
    ensures var indent := 4 * level;
      && |line| == indent + |symbol| + 1 + |Trim(text)|
      && (forall i :: 0 <= i < indent ==> line[i] == ' ')
      && line[indent..indent + |symbol|] == symbol
      && line[indent + |symbol|] == ' '
      && line[indent + |symbol| + 1..] == Trim(text)
  {
    Repeat(' ', 4 * level) + symbol + " " + Trim(text)
  }

  /** The indentation of a rendered line can be read back from its leading spaces,
      whenever the symbol does not itself start with a space. */
  lemma ListItemIndent(text: string, level: nat, symbol: string)
    requires symbol != [] && symbol[0] != ' '
    ensures LeadingRun(' ', GetListItem(text, level, symbol)) == 4 * level
  {
    var rest := symbol + " " + Trim(text);
    assert GetListItem(text, level, symbol) == Repeat(' ', 4 * level) + rest;
    LeadingRunOfRepeat(' ', 4 * level, rest);
  }

  /** Layout of a whole list started at `level`, defined element by element from the
      left: the last element of `xs` is laid out at the level reached after all
      earlier sublists, and numbered by its position. */
  function ListLayout(xs: seq<Item>, level: nat, ordered: bool, symbol: Option<string>): seq<Entry>
    decreases ItemsSize(xs), 1
  {
    if |xs| == 0 then []
    else
      var init := xs[..|xs| - 1];
      ListLayout(init, level, ordered, symbol)
        + ItemLayout(xs[|xs| - 1], |init|, level + Sublists(init), ordered, symbol)
  }

  /** Layout of the element at position `index` whose list has reached `level`. */
  function ItemLayout(x: Item, index: nat, level: nat, ordered: bool, symbol: Option<string>): seq<Entry>
    decreases ItemSize(x), 0
  {
    match x
    case Leaf(t) => [Entry(level, Symbol(ordered, symbol, index), t)]
    case Sub(ys) => ListLayout(ys, level + 1, ordered, symbol)
  }

  function Format(e: Entry): string
  {
    GetListItem(e.text, e.level, e.symbol)
  }

  function FormatAll(es: seq<Entry>): seq<string>
  {
    seq(|es|, k requires 0 <= k < |es| => Format(es[k]))
  }

  lemma FormatAllAppend(a: seq<Entry>, b: seq<Entry>)
    ensures FormatAll(a + b) == FormatAll(a) + FormatAll(b)
  {
  }

  lemma {:induction false} ElementSize(xs: seq<Item>, i: nat)
    requires i < |xs|
    ensures ItemSize(xs[i]) <= ItemsSize(xs)
    decreases |xs|
  {
    if i < |xs| - 1 {
      assert xs[..|xs| - 1][i] == xs[i];
      ElementSize(xs[..|xs| - 1], i);
    }
  }

  /** One more element of `list` extends the layout by that element's layout. */
  lemma LayoutStep(list: seq<Item>, index: nat, level: nat, ordered: bool, symbol: Option<string>)
    requires index < |list|
    ensures ListLayout(list[..index + 1], level, ordered, symbol)
      == ListLayout(list[..index], level, ordered, symbol)
         + ItemLayout(list[index], index, level + Sublists(list[..index]), ordered, symbol)
    ensures Sublists(list[..index + 1]) == Sublists(list[..index]) + (if list[index].Sub? then 1 else 0)
  {
    var prefix := list[..index + 1];
    assert prefix[..index] == list[..index];
    assert prefix[index] == list[index];
  }

  /** The loop step of `RenderList` for a leaf. */
  lemma LeafStep(list: seq<Item>, index: nat, level: nat, ordered: bool, symbol: Option<string>,
                 rendered: seq<string>)
    requires index < |list| && list[index].Leaf?
    requires rendered == FormatAll(ListLayout(list[..index], level, ordered, symbol))
    ensures rendered + [GetListItem(list[index].text, level + Sublists(list[..index]), Symbol(ordered, symbol, index))]
      == FormatAll(ListLayout(list[..index + 1], level, ordered, symbol))
    ensures Sublists(list[..index + 1]) == Sublists(list[..index])
  {
    LayoutStep(list, index, level, ordered, symbol);
    FormatAllAppend(ListLayout(list[..index], level, ordered, symbol),
                    ItemLayout(list[index], index, level + Sublists(list[..index]), ordered, symbol));
  }

  /** The loop step of `RenderList` for a sublist. */
  lemma SubStep(list: seq<Item>, index: nat, level: nat, ordered: bool, symbol: Option<string>,
                rendered: seq<string>, result: seq<string>)
    requires index < |list| && list[index].Sub?
    requires rendered == FormatAll(ListLayout(list[..index], level, ordered, symbol))
    requires result == FormatAll(ListLayout(list[index].items, level + Sublists(list[..index]) + 1, ordered, symbol))
    ensures rendered + result == FormatAll(ListLayout(list[..index + 1], level, ordered, symbol))
    ensures Sublists(list[..index + 1]) == Sublists(list[..index]) + 1
  {
    LayoutStep(list, index, level, ordered, symbol);
    FormatAllAppend(ListLayout(list[..index], level, ordered, symbol),
                    ItemLayout(list[index], index, level + Sublists(list[..index]), ordered, symbol));
  }

  /** The line `renderList` pushes for a leaf: the given symbol in an unordered list
      that has one, otherwise the leaf's position among all its siblings plus one,
      followed by a dot. */
  method LeafLine(text: string, level: nat, ordered: bool, symbol: Option<string>, index: nat)
    returns (line: string)
    ensures line == GetListItem(text, level, Symbol(ordered, symbol, index))
  {
    var listSymbol: string;
    if !ordered && symbol.Some? {
      listSymbol := symbol.value;
    } else {
      listSymbol := NatToString(index + 1) + ".";
    }
    line := GetListItem(text, level, listSymbol);
  }

  /** `renderList`: the original's loop over the elements, with the level bumped in
      place whenever a sublist is met. Its lines are the formatted layout. */
  method RenderList(list: seq<Item>, level: nat, ordered: bool, symbol: Option<string>)
    returns (rendered: seq<string>)
    ensures rendered == FormatAll(ListLayout(list, level, ordered, symbol))
    decreases ItemsSize(list)
  {
    rendered := [];
    var currentLevel := level;
    var index := 0;
    while index < |list|
      invariant index <= |list|
      invariant currentLevel == level + Sublists(list[..index])
      invariant rendered == FormatAll(ListLayout(list[..index], level, ordered, symbol))
    {
      match list[index] {
        case Leaf(t) =>
          var line := LeafLine(t, currentLevel, ordered, symbol, index);
          LeafStep(list, index, level, ordered, symbol, rendered);
          rendered := rendered + [line];
        case Sub(xs) =>
          currentLevel := currentLevel + 1;
          ElementSize(list, index);
          var result := RenderList(xs, currentLevel, ordered, symbol);
          SubStep(list, index, level, ordered, symbol, rendered, result);
          rendered := rendered + result;
      }
      index := index + 1;
    }
    assert list[..index] == list;
  }

  function Texts(es: seq<Entry>): seq<string>
  {
    seq(|es|, k requires 0 <= k < |es| => es[k].text)
  }

  lemma TextsAppend(a: seq<Entry>, b: seq<Entry>)
    ensures Texts(a + b) == Texts(a) + Texts(b)
  {
  }

  /** One entry per leaf, in depth-first pre-order: the layout's texts are the leaves. */
  lemma {:induction false} LayoutTexts(xs: seq<Item>, level: nat, ordered: bool, symbol: Option<string>)
    ensures Texts(ListLayout(xs, level, ordered, symbol)) == Leaves(xs)
    decreases ItemsSize(xs), 1
  {
    if |xs| > 0 {
      var init := xs[..|xs| - 1];
      var a := ListLayout(init, level, ordered, symbol);
      var b := ItemLayout(xs[|xs| - 1], |init|, level + Sublists(init), ordered, symbol);
      assert ListLayout(xs, level, ordered, symbol) == a + b;
      assert Leaves(xs) == Leaves(init) + LeavesOf(xs[|xs| - 1]);
      LayoutTexts(init, level, ordered, symbol);
      ItemLayoutTexts(xs[|xs| - 1], |init|, level + Sublists(init), ordered, symbol);
      TextsAppend(a, b);
    }
  }

  lemma {:induction false} ItemLayoutTexts(x: Item, index: nat, level: nat, ordered: bool, symbol: Option<string>)
    ensures Texts(ItemLayout(x, index, level, ordered, symbol)) == LeavesOf(x)
    decreases ItemSize(x), 0
  {
    match x
    case Leaf(t) =>
    case Sub(ys) => LayoutTexts(ys, level + 1, ordered, symbol);
  }

  /** Exactly one rendered line per leaf, in pre-order: line `k` ends with the trimmed
      text of leaf `k`. */
  lemma RenderedLineOfLeaf(xs: seq<Item>, level: nat, ordered: bool, symbol: Option<string>)
    ensures var lines := FormatAll(ListLayout(xs, level, ordered, symbol));
      && |lines| == |Leaves(xs)|
      && forall k :: 0 <= k < |lines| ==>
           var t := Trim(Leaves(xs)[k]);
           |t| <= |lines[k]| && lines[k][|lines[k]| - |t|..] == t
  {
    var es := ListLayout(xs, level, ordered, symbol);
    LayoutTexts(xs, level, ordered, symbol);
    assert |Texts(es)| == |es|;
    forall k | 0 <= k < |es|
      ensures var t := Trim(Leaves(xs)[k]); var line := FormatAll(es)[k];
        |t| <= |line| && line[|line| - |t|..] == t
    {
      assert Leaves(xs)[k] == Texts(es)[k] == es[k].text;
    }
  }

  /** With an unordered list and an explicit symbol, every leaf at every depth uses
      that symbol, since the symbol is handed down to the recursive calls. */
  lemma {:induction false} UniformSymbol(xs: seq<Item>, level: nat, sym: string)
    ensures forall e :: e in ListLayout(xs, level, false, Some(sym)) ==> e.symbol == sym
    decreases ItemsSize(xs), 1
  {
    if |xs| > 0 {
      var init := xs[..|xs| - 1];
      UniformSymbol(init, level, sym);
      ItemUniformSymbol(xs[|xs| - 1], |init|, level + Sublists(init), sym);
    }
  }

  lemma {:induction false} ItemUniformSymbol(x: Item, index: nat, level: nat, sym: string)
    ensures forall e :: e in ItemLayout(x, index, level, false, Some(sym)) ==> e.symbol == sym
    decreases ItemSize(x), 0
  {
    match x
    case Leaf(t) =>
    case Sub(ys) => UniformSymbol(ys, level + 1, sym);
  }

  /** The layout of a prefix of a list is a prefix of the layout of the list. */
  lemma {:induction false} LayoutPrefix(list: seq<Item>, j: nat, level: nat, ordered: bool, symbol: Option<string>)
    requires j <= |list|
    ensures ListLayout(list[..j], level, ordered, symbol) <= ListLayout(list, level, ordered, symbol)
    decreases |list| - j
  {
    if j < |list| {
      LayoutStep(list, j, level, ordered, symbol);
      LayoutPrefix(list, j + 1, level, ordered, symbol);
    } else {
      assert list[..j] == list;
    }
  }

  /** The leaf at position `i` of a list is laid out after the leaves of the elements
      before it, at the start level plus the number of sublist elements before it, and
      numbered `i + 1` counting every sibling. */
  lemma LeafPosition(list: seq<Item>, level: nat, ordered: bool, symbol: Option<string>, i: nat)
    requires i < |list| && list[i].Leaf?
    ensures var k := |Leaves(list[..i])|;
      var layout := ListLayout(list, level, ordered, symbol);
      && k < |layout|
      && layout[k] == Entry(level + Sublists(list[..i]), Symbol(ordered, symbol, i), list[i].text)
  {
    var before := ListLayout(list[..i], level, ordered, symbol);
    var e := Entry(level + Sublists(list[..i]), Symbol(ordered, symbol, i), list[i].text);
    var upTo := ListLayout(list[..i + 1], level, ordered, symbol);
    var layout := ListLayout(list, level, ordered, symbol);
    LayoutStep(list, i, level, ordered, symbol);
    assert upTo == before + [e];
    LayoutPrefix(list, i + 1, level, ordered, symbol);
    LayoutTexts(list[..i], level, ordered, symbol);
    assert |Leaves(list[..i])| == |Texts(before)| == |before|;
    assert layout[|before|] == upTo[|before|] == e;
  }

  /** The sublist at position `i` of a list contributes its own layout, numbered afresh
      from 1, one level below the level reached before it, right after the leaves of
      the elements before it. */
  lemma SublistPosition(list: seq<Item>, level: nat, ordered: bool, symbol: Option<string>, i: nat)
    requires i < |list| && list[i].Sub?
    ensures var k := |Leaves(list[..i])|;
      var layout := ListLayout(list, level, ordered, symbol);
      var sub := ListLayout(list[i].items, level + Sublists(list[..i]) + 1, ordered, symbol);
      && k + |sub| <= |layout|
      && layout[k..k + |sub|] == sub
  {
    var before := ListLayout(list[..i], level, ordered, symbol);
    var sub := ListLayout(list[i].items, level + Sublists(list[..i]) + 1, ordered, symbol);
    var upTo := ListLayout(list[..i + 1], level, ordered, symbol);
    var layout := ListLayout(list, level, ordered, symbol);
    LayoutStep(list, i, level, ordered, symbol);
    assert upTo == before + sub;
    LayoutPrefix(list, i + 1, level, ordered, symbol);
    LayoutTexts(list[..i], level, ordered, symbol);
    assert |Leaves(list[..i])| == |Texts(before)| == |before|;
    SliceOfPrefix(layout, before, sub);
  }

  lemma SliceOfPrefix(whole: seq<Entry>, before: seq<Entry>, part: seq<Entry>)
    requires before + part <= whole
    ensures |before| + |part| <= |whole| && whole[|before|..|before| + |part|] == part
  {
    assert whole[..|before| + |part|] == before + part;
  }

  lemma ExampleSymbols()
    ensures Symbol(true, None, 0) == "1." && Symbol(true, None, 2) == "3."
  {
    assert NatToString(1) == "1" && NatToString(3) == "3";
  }

  lemma ExampleLayout()
    ensures ListLayout([Leaf("a"), Sub([]), Leaf("b")], 0, true, None)
      == [Entry(0, "1.", "a"), Entry(1, "3.", "b")]
  {
    var xs := [Leaf("a"), Sub([]), Leaf("b")];
    ExampleSymbols();
    LayoutStep(xs, 0, 0, true, None);
    LayoutStep(xs, 1, 0, true, None);
    LayoutStep(xs, 2, 0, true, None);
    assert xs[..0] == [];
    assert xs[..3] == xs;
  }

  lemma ExampleLines()
    ensures Format(Entry(0, "1.", "a")) == "1. a"
    ensures Format(Entry(1, "3.", "b")) == "    3. b"
  {
    assert Trim("a") == "a" && Trim("b") == "b";
    assert Repeat(' ', 4) == "    ";
  }

  /** An empty list renders nothing; an empty sublist renders nothing either but still
      pushes the later sibling one level deeper and skips its number. */
  lemma EmptySublistExample()
    ensures FormatAll(ListLayout([], 0, true, None)) == []
    ensures FormatAll(ListLayout([Leaf("a"), Sub([]), Leaf("b")], 0, true, None)) == ["1. a", "    3. b"]
  {
    ExampleLayout();
    ExampleLines();
  }
}
