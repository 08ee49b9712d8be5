/** What an XML document is reported as: a word of start, end and text events.  The words
    that documents have are those of trees. */
module XmlEvents {
  import opened Prelude

  type Attributes = seq<(string, string)>

  datatype Event =
    | Start(prefix: string, name: string, attributes: Attributes)
    | End(prefix: string, name: string)
    | Text(chunk: string)

  // ---- trees and their words --------------------------------------------------------------

  /** A document tree that keeps every piece of character data apart.  The prefix of the
      end tag need not be that of the start tag; the local name is the same. */
  datatype Tree = Tree(prefix: string, name: string, attributes: Attributes, items: seq<Item>, endPrefix: string)

  datatype Item = Chars(chunk: string) | Child(tree: Tree)

  function Opening(t: Tree): seq<Event> {
    [Start(t.prefix, t.name, t.attributes)] + Words(t.items)
  }

  function Word(t: Tree): seq<Event> {
    [Start(t.prefix, t.name, t.attributes)] + Words(t.items) + [End(t.endPrefix, t.name)]
  }

  function ItemWord(item: Item): seq<Event> {
    match item case Chars(chunk) => [Text(chunk)] case Child(t) => Word(t)
  }

  function Words(items: seq<Item>): seq<Event> {
    if items == [] then [] else Words(items[..|items| - 1]) + ItemWord(items[|items| - 1])
  }

  // ---- trees under construction --------------------------------------------------------------

  /** The root once it is closed, and the open elements, outermost first, each with the
      items that it has so far. */
  datatype Zipper = Zipper(root: Option<Tree>, open: seq<Tree>)

  function Flat(open: seq<Tree>): seq<Event> {
    if open == [] then [] else Flat(open[..|open| - 1]) + Opening(open[|open| - 1])
  }

  function Flatten(z: Zipper): seq<Event> {
    (if z.root.Some? then Word(z.root.value) else []) + Flat(z.open)
  }

  function Add(t: Tree, item: Item): Tree {
    t.(items := t.items + [item])
  }

  /** Put the innermost open element where it belongs. */
  function Attach(z: Zipper, t: Tree): Zipper {
    if z.open == [] then Zipper(Some(t), [])
    else z.(open := z.open[..|z.open| - 1] + [Add(z.open[|z.open| - 1], Child(t))])
  }

  /** One more event: none after which no nested word with one root could follow. */
  function Grow(z: Zipper, e: Event): Option<Zipper> {
    match e
    case Start(p, n, a) =>
      if z.open == [] && z.root.Some? then None
      else Some(z.(open := z.open + [Tree(p, n, a, [], "")]))
    case End(p, n) =>
      if z.open == [] || z.open[|z.open| - 1].name != n then None
      else Some(Attach(z.(open := z.open[..|z.open| - 1]), z.open[|z.open| - 1].(endPrefix := p)))
    case Text(chunk) =>
      if z.open == [] then None
      else Some(z.(open := z.open[..|z.open| - 1] + [Add(z.open[|z.open| - 1], Chars(chunk))]))
  }

  function Zip(events: seq<Event>): Option<Zipper> {
    if events == [] then Some(Zipper(None, []))
    else
      match Zip(events[..|events| - 1])
      case None => None
      case Some(z) => Grow(z, events[|events| - 1])
  }

  lemma ZipSnoc(events: seq<Event>, e: Event)
    ensures Zip(events + [e]) == if Zip(events).None? then None else Grow(Zip(events).value, e)
  {
    assert (events + [e])[..|events|] == events;
  }

  lemma AddItem(items: seq<Item>, item: Item)
    ensures Words(items + [item]) == Words(items) + ItemWord(item)
  {
    assert (items + [item])[..|items|] == items;
  }

  lemma FlatSnoc(open: seq<Tree>, t: Tree)
    ensures Flat(open + [t]) == Flat(open) + Opening(t)
  {
    assert (open + [t])[..|open|] == open;
  }

  lemma FlatItem(open: seq<Tree>, t: Tree, item: Item)
    ensures Flat(open + [Add(t, item)]) == Flat(open + [t]) + ItemWord(item)
  {
    hide Flat, Words, ItemWord;
    var head := [Start(t.prefix, t.name, t.attributes)];
    FlatSnoc(open, t);
    FlatSnoc(open, Add(t, item));
    AddItem(t.items, item);
    Assoc(head, Words(t.items), ItemWord(item));
    Assoc(Flat(open), Opening(t), ItemWord(item));
  }

  lemma FlatEnd(open: seq<Tree>, t: Tree, p: string)
    ensures Flat(open + [t]) + [End(p, t.name)] == Flat(open) + Word(t.(endPrefix := p))
  {
    hide Flat, Words;
    FlatSnoc(open, t);
    Assoc(Flat(open), Opening(t), [End(p, t.name)]);
  }

  lemma StartFlattens(open: seq<Tree>, t: Tree)
    requires t.items == []
    ensures Flat(open + [t]) == Flat(open) + [Start(t.prefix, t.name, t.attributes)]
  {
    hide Flat, Words;
    FlatSnoc(open, t);
    NoItems();
    assert Opening(t) == [Start(t.prefix, t.name, t.attributes)];
  }

  /** Closing the innermost element and hanging it up spells the same, and the end. */
  lemma AttachFlattens(outer: seq<Tree>, t: Tree, p: string)
    ensures Flatten(Attach(Zipper(None, outer), t.(endPrefix := p))) == Flat(outer + [t]) + [End(p, t.name)]
  {
    hide Flat, Word;
    var closed := t.(endPrefix := p);
    FlatEnd(outer, t, p);
    NoneOpen();
    if outer == [] {
      assert Word(closed) + [] == Word(closed) && [] + Word(closed) == Word(closed);
    } else {
      var up, above := outer[|outer| - 1], outer[..|outer| - 1];
      assert outer == above + [up];
      FlatItem(above, up, Child(closed));
      assert [] + Flat(above + [Add(up, Child(closed))]) == Flat(above + [Add(up, Child(closed))]);
    }
  }

  lemma GrowFlattens(z: Zipper, e: Event)
    requires Grow(z, e).Some?
    requires z.root.Some? ==> z.open == []
    ensures Flatten(Grow(z, e).value) == Flatten(z) + [e]
    ensures Grow(z, e).value.root.Some? ==> Grow(z, e).value.open == []
  {
    hide Flat, Word, Flatten, Words;
    var open, z' := z.open, Grow(z, e).value;
    assert z.root.None?;
    OpenFlattens(z);
    match e
    case Start(p, n, a) =>
      StartFlattens(open, Tree(p, n, a, [], ""));
      OpenFlattens(z');
    case End(p, n) =>
      var outer, t := open[..|open| - 1], open[|open| - 1];
      assert open == outer + [t] && z.(open := outer) == Zipper(None, outer);
      AttachFlattens(outer, t, p);
    case Text(chunk) =>
      var outer, t := open[..|open| - 1], open[|open| - 1];
      assert open == outer + [t];
      FlatItem(outer, t, Chars(chunk));
      OpenFlattens(z');
  }

  lemma OpenFlattens(z: Zipper)
    requires z.root.None?
    ensures Flatten(z) == Flat(z.open)
  {
  }

  lemma NoItems()
    ensures Words([]) == []
  {
  }

  lemma NoneOpen()
    ensures Flat([]) == []
  {
  }

  /** The zipper holds all of the events. */
  lemma {:induction false} ZipFlattens(events: seq<Event>)
    requires Zip(events).Some?
    ensures Flatten(Zip(events).value) == events
    ensures Zip(events).value.root.Some? ==> Zip(events).value.open == []
  {
    hide Grow, Flatten;
    if events == [] {
      NothingFlattens();
    } else {
      ZipFlattens(events[..|events| - 1]);
      GrowFlattens(Zip(events[..|events| - 1]).value, events[|events| - 1]);
    }
  }

  lemma NothingFlattens()
    ensures Flatten(Zipper(None, [])) == []
  {
  }

  // ---- prefixes of nested words -----------------------------------------------------------------

  /** Close whatever is open, from the inside out. */
  function CloseAll(open: seq<Tree>): Tree
    requires open != []
    decreases |open|
  {
    var outer, t := open[..|open| - 1], open[|open| - 1];
    if outer == [] then t else CloseAll(outer[..|outer| - 1] + [Add(outer[|outer| - 1], Child(t))])
  }

  lemma {:induction false} FlatIsPrefix(open: seq<Tree>)
    requires open != []
    ensures Flat(open) <= Word(CloseAll(open))
    decreases |open|
  {
    hide Flat, Words;
    var outer, t := open[..|open| - 1], open[|open| - 1];
    assert open == outer + [t];
    FlatEnd(outer, t, t.endPrefix);
    assert t.(endPrefix := t.endPrefix) == t;
    if outer == [] {
      NoneOpen();
      assert [] + Word(t) == Word(t);
    } else {
      var up, above := outer[|outer| - 1], outer[..|outer| - 1];
      assert outer == above + [up];
      FlatItem(above, up, Child(t));
      FlatIsPrefix(above + [Add(up, Child(t))]);
    }
  }

  ghost predicate NestedPrefix(events: seq<Event>) {
    events == [] || exists t :: events <= Word(t)
  }

  /** What the zipper accepts is a prefix of the word of a tree, and the whole word once
      the root is closed. */
  lemma ZipIsPrefix(events: seq<Event>)
    requires Zip(events).Some?
    ensures NestedPrefix(events)
    ensures Zip(events).value.root.Some? ==> events == Word(Zip(events).value.root.value)
  {
    hide Zip, Flat, Word;
    var z := Zip(events).value;
    ZipFlattens(events);
    NoneOpen();
    if z.root.Some? {
      assert Word(z.root.value) + [] == Word(z.root.value);
      assert events <= Word(z.root.value);
    } else {
      assert events == Flat(z.open);
      if z.open != [] { FlatIsPrefix(z.open); }
    }
  }

  // ---- a word has one tree -----------------------------------------------------------------------

  function Fill(t: Tree, items: seq<Item>): Tree {
    t.(items := items)
  }

  function Inner(z: Zipper, items: seq<Item>): Zipper
    requires z.open != []
  {
    z.(open := z.open[..|z.open| - 1] + [Fill(z.open[|z.open| - 1], items)])
  }

  lemma {:induction false} WordsZip(events: seq<Event>, items: seq<Item>)
    requires Zip(events).Some? && Zip(events).value.open != []
    requires Zip(events).value.open[|Zip(events).value.open| - 1].items == []
    ensures Zip(events + Words(items)) == Some(Inner(Zip(events).value, items))
    decreases items
  {
    hide Zip, Word;
    var z := Zip(events).value;
    if items == [] {
      assert events + Words(items) == events && Inner(z, items).open == z.open;
    } else {
      var init, last := items[..|items| - 1], items[|items| - 1];
      WordsZip(events, init);
      ItemZips(events + Words(init), last);
      Assoc(events, Words(init), ItemWord(last));
      assert init + [last] == items;
      InnerAdd(z, init, last);
    }
  }

  function Added(z: Zipper, item: Item): Zipper
    requires z.open != []
  {
    z.(open := z.open[..|z.open| - 1] + [Add(z.open[|z.open| - 1], item)])
  }

  lemma InnerAdd(z: Zipper, init: seq<Item>, last: Item)
    requires z.open != []
    ensures Added(Inner(z, init), last) == Inner(z, init + [last])
  {
  }

  lemma {:induction false} ItemZips(events: seq<Event>, item: Item)
    requires Zip(events).Some? && Zip(events).value.open != []
    ensures Zip(events + ItemWord(item)) == Some(Added(Zip(events).value, item))
    decreases item
  {
    hide Zip, Word;
    match item
    case Chars(chunk) => ZipSnoc(events, Text(chunk));
    case Child(t) => WordZips(events, t);
  }

  lemma {:induction false} WordZips(events: seq<Event>, t: Tree)
    requires Zip(events).Some? && (Zip(events).value.open == [] ==> Zip(events).value.root.None?)
    ensures Zip(events + Word(t)) == Some(Attach(Zip(events).value, t))
    decreases t
  {
    hide Zip, Words;
    var z, start, end := Zip(events).value, Start(t.prefix, t.name, t.attributes), End(t.endPrefix, t.name);
    ZipSnoc(events, start);
    WordsZip(events + [start], t.items);
    ZipSnoc(events + [start] + Words(t.items), end);
    Assoc(events, [start], Words(t.items));
    Assoc(events, [start] + Words(t.items), [end]);
    var inner := Inner(z.(open := z.open + [Tree(t.prefix, t.name, t.attributes, [], "")]), t.items);
    assert inner.open[..|z.open|] == z.open && inner.open[|z.open|].(endPrefix := t.endPrefix) == t;
  }

  /** The tree is found again from its word. */
  lemma TreeOfWord(t: Tree)
    ensures Zip(Word(t)) == Some(Zipper(Some(t), []))
  {
    hide Word;
    WordZips([], t);
    assert [] + Word(t) == Word(t);
  }

  // ---- the tree that is handed out -----------------------------------------------------------------

  /** An element with its character data joined, however many pieces it came in. */
  datatype Element = Element(prefix: string, name: string, attributes: Attributes, text: string, children: seq<Element>)

  function TextOf(items: seq<Item>): string {
    if items == [] then ""
    else
      var last := items[|items| - 1];
      TextOf(items[..|items| - 1]) + if last.Chars? then last.chunk else ""
  }

  function Merge(t: Tree): Element {
    Element(t.prefix, t.name, t.attributes, TextOf(t.items), ChildrenOf(t.items))
  }

  function ElementOf(item: Item): seq<Element> {
    match item case Chars(_) => [] case Child(t) => [Merge(t)]
  }

  function ChildrenOf(items: seq<Item>): seq<Element> {
    if items == [] then [] else ChildrenOf(items[..|items| - 1]) + ElementOf(items[|items| - 1])
  }

  /** The open elements, outermost first, and the document once its root is closed. */
  datatype Builder = Builder(root: Option<Element>, open: seq<Element>)

  function Hang(b: Builder, e: Element): Builder {
    if b.open == [] then Builder(Some(e), [])
    else
      var up := b.open[|b.open| - 1];
      b.(open := b.open[..|b.open| - 1] + [up.(children := up.children + [e])])
  }

  function Take(b: Builder, e: Event): Builder
    requires e.Start? || b.open != []
  {
    match e
    case Start(p, n, a) =>
      Builder(if b.open == [] then None else b.root, b.open + [Element(p, n, a, "", [])])
    case End(_, _) => Hang(b.(open := b.open[..|b.open| - 1]), b.open[|b.open| - 1])
    case Text(chunk) =>
      var top := b.open[|b.open| - 1];
      b.(open := b.open[..|b.open| - 1] + [top.(text := top.text + chunk)])
  }

  function MergeAll(open: seq<Tree>): (r: seq<Element>)
    ensures |r| == |open|
  {
    seq(|open|, i requires 0 <= i < |open| => Merge(open[i]))
  }

  function Merged(z: Zipper): Builder {
    Builder(if z.root.Some? then Some(Merge(z.root.value)) else None, MergeAll(z.open))
  }

  lemma MergeAdd(t: Tree, item: Item)
    ensures item.Chars? ==> Merge(Add(t, item)) == Merge(t).(text := Merge(t).text + item.chunk)
    ensures item.Child? ==> Merge(Add(t, item)) == Merge(t).(children := Merge(t).children + [Merge(item.tree)])
  {
    ItemsSnoc(t.items, item);
    assert item.Child? ==> ElementOf(item) == [Merge(item.tree)];
    assert ChildrenOf(t.items) + [] == ChildrenOf(t.items) && TextOf(t.items) + "" == TextOf(t.items);
    assert Merge(Add(t, item)).children == ChildrenOf(t.items + [item]);
  }

  lemma ItemsSnoc(items: seq<Item>, item: Item)
    ensures ChildrenOf(items + [item]) == ChildrenOf(items) + ElementOf(item)
    ensures TextOf(items + [item]) == TextOf(items) + if item.Chars? then item.chunk else ""
  {
    assert (items + [item])[..|items|] == items;
  }

  lemma MergeOpen(t: Tree)
    requires t.items == []
    ensures Merge(t) == Element(t.prefix, t.name, t.attributes, "", [])
  {
  }

  lemma MergeEnd(t: Tree, p: string)
    ensures Merge(t.(endPrefix := p)) == Merge(t)
  {
  }

  /** Folding the events one by one keeps to the tree whose word they spell. */
  lemma TakeMerges(z: Zipper, e: Event)
    requires Grow(z, e).Some?
    requires z.root.Some? ==> z.open == []
    ensures Take(Merged(z), e) == Merged(Grow(z, e).value)
  {
    hide Merge;
    var open, z' := z.open, Grow(z, e).value;
    match e
    case Start(p, n, a) =>
      MergeOpen(Tree(p, n, a, [], ""));
    case End(p, n) =>
      var t := open[|open| - 1];
      var outer := open[..|open| - 1];
      MergeEnd(t, p);
      assert MergeAll(open)[..|open| - 1] == MergeAll(outer);
      if outer != [] { MergeAdd(outer[|outer| - 1], Child(t.(endPrefix := p))); }
    case Text(chunk) =>
      MergeAdd(open[|open| - 1], Chars(chunk));
  }

  /** All of the events in turn, as far as they nest. */
  function Fold(events: seq<Event>): Builder
    requires Zip(events).Some?
    ensures Fold(events) == Merged(Zip(events).value)
  {
    if events == [] then Builder(None, [])
    else
      var init, e := events[..|events| - 1], events[|events| - 1];
      ZipFlattens(init);
      TakeMerges(Zip(init).value, e);
      Take(Fold(init), e)
  }
}
