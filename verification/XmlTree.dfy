/** The tree sink: elements on the heap, each owned by its parent, with borrowed pointers
    to those that are still open. */
module XmlTree {
  import opened Prelude
  import opened XmlEvents

  class XmlElement {
    const prefix: string
    const name: string
    const attributes: Attributes
    var text: string
    var children: seq<XmlElement>

    constructor (prefix: string, name: string, attributes: Attributes)
      ensures this.prefix == prefix && this.name == name && this.attributes == attributes
      ensures text == "" && children == []
    {
      this.prefix, this.name, this.attributes := prefix, name, attributes;
      text, children := "", [];
    }
  }

  /** The element and everything below it, all within `nodes`, is this value. */
  ghost predicate Is(node: XmlElement, e: Element, nodes: set<XmlElement>)
    reads nodes
    decreases e
  {
    && node in nodes
    && node.prefix == e.prefix && node.name == e.name && node.attributes == e.attributes && node.text == e.text
    && AreAll(node.children, e.children, nodes)
  }

  ghost predicate AreAll(list: seq<XmlElement>, values: seq<Element>, nodes: set<XmlElement>)
    reads nodes
    decreases values
  {
    |list| == |values| && forall i :: 0 <= i < |values| ==> Is(list[i], values[i], nodes)
  }

  lemma {:induction false} IsWithin(node: XmlElement, e: Element, nodes: set<XmlElement>, more: set<XmlElement>)
    requires Is(node, e, nodes) && nodes <= more
    ensures Is(node, e, more)
    decreases e
  {
    forall i | 0 <= i < |e.children| ensures Is(node.children[i], e.children[i], more) {
      IsWithin(node.children[i], e.children[i], nodes, more);
    }
  }

  lemma AreAllWithin(list: seq<XmlElement>, values: seq<Element>, nodes: set<XmlElement>, more: set<XmlElement>)
    requires AreAll(list, values, nodes) && nodes <= more
    ensures AreAll(list, values, more)
  {
    hide Is;
    forall i | 0 <= i < |values| ensures Is(list[i], values[i], more) {
      IsWithin(list[i], values[i], nodes, more);
    }
  }

  class XmlTreeSink {
    var document: XmlElement?
    var stack: seq<XmlElement>

    // The elements that are closed, and what has been built so far.
    ghost var closed: set<XmlElement>
    ghost var model: Builder

    /** The i-th open element: its own fields, and its children up to the one, if any, that
        is still open. */
    ghost predicate OpenAt(i: nat)
      requires i < |stack| && |stack| == |model.open|
      reads this, stack, closed
    {
      var node, e := stack[i], model.open[i];
      && node.prefix == e.prefix && node.name == e.name && node.attributes == e.attributes && node.text == e.text
      && |node.children| == |e.children| + (if i + 1 < |stack| then 1 else 0)
      && AreAll(node.children[..|e.children|], e.children, closed)
      && (i + 1 < |stack| ==> node.children[|e.children|] == stack[i + 1])
    }

    ghost predicate Valid()
      reads this, stack, closed
    {
      && |stack| == |model.open|
      && (forall i :: 0 <= i < |stack| ==> stack[i] !in closed)
      && (forall i, j :: 0 <= i < j < |stack| ==> stack[i] != stack[j])
      && (forall i :: 0 <= i < |stack| ==> OpenAt(i))
      && (stack != [] ==> document == stack[0] && model.root.None?)
      && (stack == [] ==> if document == null then model.root.None?
                          else model.root.Some? && Is(document, model.root.value, closed))
    }

    constructor ()
      ensures Valid() && stack == [] && model == Builder(None, []) && closed == {}
    {
      document, stack, closed, model := null, [], {}, Builder(None, []);
    }

    method Open(prefix: string, name: string, attributes: Attributes)
      requires Valid()
      modifies this, stack
      ensures Valid() && model == Take(old(model), Start(prefix, name, attributes)) && closed == old(closed)
      ensures exists element :: fresh(element) && stack == old(stack) + [element]
    {
      hide Is, AreAll;
      var element := new XmlElement(prefix, name, attributes);
      var n := |stack|;
      if n == 0 {
        document := element;
      } else {
        var top := stack[n - 1];
        assert OpenAt(n - 1);
        top.children := top.children + [element];
      }
      stack := stack + [element];
      model := Take(model, Start(prefix, name, attributes));
      NoneAreAll(closed);
      assert OpenAt(n) by { assert element.children[..0] == []; }
      forall i | 0 <= i < n ensures OpenAt(i) {
        assert old(OpenAt(i));
        var k := |model.open[i].children|;
        assert model.open[i] == old(model.open[i]) && stack[i] == old(stack[i]);
        assert stack[i].children[..k] == old(stack[i].children[..k]);
      }
    }

    method Close(prefix: string, name: string)
      requires Valid() && stack != []
      modifies this
      ensures Valid() && model == Take(old(model), End(prefix, name)) && stack == old(stack)[..|old(stack)| - 1]
      ensures closed == old(closed) + {old(stack)[|old(stack)| - 1]}
    {
      hide Is, AreAll;
      var n := |stack| - 1;
      ghost var top, value := stack[n], model.open[n];
      assert OpenAt(n);
      assert top.children[..|value.children|] == top.children;
      ghost var was := closed;
      closed := closed + {top};
      AreAllWithin(top.children, value.children, was, closed);
      NowIs(top, value, closed);
      stack := stack[..n];
      model := Take(model, End(prefix, name));
      forall i | 0 <= i < n ensures OpenAt(i) {
        assert old(OpenAt(i));
        var k := |old(model).open[i].children|;
        AreAllWithin(stack[i].children[..k], old(model).open[i].children, was, closed);
        if i == n - 1 {
          AreAllSnoc(stack[i].children[..k], old(model).open[i].children, top, value, closed);
          assert stack[i].children[..k + 1] == stack[i].children[..k] + [top];
        }
      }
    }

    method Characters(chunk: string)
      requires Valid() && stack != []
      modifies stack[|stack| - 1], this`model
      ensures Valid() && model == Take(old(model), Text(chunk))
    {
      hide Is, AreAll;
      var n := |stack|;
      var top := stack[n - 1];
      assert OpenAt(n - 1);
      top.text := top.text + chunk;
      model := Take(model, Text(chunk));
      forall i | 0 <= i < n ensures OpenAt(i) {
        assert old(OpenAt(i));
      }
    }
  }

  lemma NoneAreAll(nodes: set<XmlElement>)
    ensures AreAll([], [], nodes)
  {
  }

  lemma NowIs(node: XmlElement, e: Element, nodes: set<XmlElement>)
    requires node in nodes && node.prefix == e.prefix && node.name == e.name && node.attributes == e.attributes
    requires node.text == e.text && AreAll(node.children, e.children, nodes)
    ensures Is(node, e, nodes)
  {
  }

  lemma AreAllSnoc(list: seq<XmlElement>, values: seq<Element>, node: XmlElement, e: Element, nodes: set<XmlElement>)
    requires AreAll(list, values, nodes) && Is(node, e, nodes)
    ensures AreAll(list + [node], values + [e], nodes)
  {
    hide Is;
  }

  lemma {:induction false} ZipPrefix(events: seq<Event>, n: nat)
    requires n <= |events| && Zip(events).Some?
    ensures Zip(events[..n]).Some?
  {
    if n == |events| {
      assert events[..n] == events;
    } else {
      ZipPrefix(events[..|events| - 1], n);
      assert events[..|events| - 1][..n] == events[..n];
    }
  }

  lemma FoldNext(events: seq<Event>, n: nat)
    requires n < |events| && Zip(events[..n]).Some? && Zip(events[..n + 1]).Some?
    ensures events[n].Start? || Fold(events[..n]).open != []
    ensures Fold(events[..n + 1]) == Take(Fold(events[..n]), events[n])
  {
    hide Merge;
    assert events[..n + 1][..n] == events[..n];
  }

  lemma FoldStarts()
    ensures Fold([]) == Builder(None, [])
  {
  }

  /** Every event of a nested word to a sink of its own: what it builds is the fold of the
      events, and the tree whose word they are once the root is closed. */
  method Assemble(events: seq<Event>) returns (sink: XmlTreeSink)
    requires Zip(events).Some?
    ensures fresh(sink) && sink.Valid() && sink.model == Fold(events)
    ensures var root := Zip(events).value.root;
            root.Some? ==> sink.document != null && Is(sink.document, Merge(root.value), sink.closed)
  {
    hide Is, Take, Zip, Merge, MergeAll;
    sink := new XmlTreeSink();
    assert events[..0] == [];
    ZipPrefix(events, 0);
    FoldStarts();
    for n := 0 to |events|
      invariant Zip(events[..n]).Some?
      invariant fresh(sink) && sink.Valid() && forall i :: 0 <= i < |sink.stack| ==> fresh(sink.stack[i])
      invariant sink.model == Fold(events[..n])
    {
      ZipPrefix(events, n + 1);
      FoldNext(events, n);
      match events[n] {
        case Start(prefix, name, attributes) => sink.Open(prefix, name, attributes);
        case End(prefix, name) => sink.Close(prefix, name);
        case Text(chunk) => sink.Characters(chunk);
      }
    }
    assert events[..|events|] == events;
    ZipFlattens(events);
  }
}
