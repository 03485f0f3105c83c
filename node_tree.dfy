/**
 * The markup tree the exporter builds.  The exporter asks an HTML library
 * (Nokogiri, which is not part of this model) for documents, fragments,
 * elements and text nodes, and attaches nodes with `add_child`.  Here a
 * document is an arena: a sequence of nodes addressed by their index, each
 * knowing its parent and its ordered children.  Serialisation is not
 * modelled; a rendered block is the tree itself.
 */
module NodeTree {
  import opened RubyValues

  datatype Kind = FragmentNode | ElementNode | TextNode

  /** `content` is the text an element is created with, or a text node's text. */
  datatype Node = Node(
    kind: Kind,
    name: string,
    content: string,
    attrs: map<Value, Value>,
    parent: Option<nat>,
    children: seq<nat>)

  /** A freshly created node, not yet attached anywhere. */
  function Detached(kind: Kind, name: string, content: string, attrs: map<Value, Value>): (n: Node)
    ensures n.parent.None? && n.children == []
  {
    Node(kind, name, content, attrs, None, [])
  }

  function Element(name: string, content: string, attrs: map<Value, Value>): (n: Node)
    ensures n.kind == ElementNode && n.parent.None? && n.children == []
  {
    Detached(ElementNode, name, content, attrs)
  }

  function Text(text: string): (n: Node)
    ensures n.kind == TextNode && n.content == text && n.parent.None? && n.children == []
  {
    Detached(TextNode, "", text, map[])
  }

  /** The name `create_element` is given: a string or a symbol. */
  function ElementName(v: Value): (r: Result<string>)
    ensures v.Str? ==> r == Ok(v.s)
    ensures v.Sym? ==> r == Ok(v.name)
    ensures r.Ok? <==> v.Str? || v.Sym?
  {
    match v
    case Str(s) => Ok(s)
    case Sym(n) => Ok(n)
    case _ => Err(Unsupported("an element name that is not a string or symbol"))
  }

  /** Every parent and child index names a node of the arena. */
  predicate WellFormed(nodes: seq<Node>) {
    forall i :: 0 <= i < |nodes| ==>
      (nodes[i].parent.Some? ==> nodes[i].parent.value < |nodes|) &&
      (forall c :: c in nodes[i].children ==> c < |nodes|)
  }

  /**
   * `parent.add_child(child)` for a detached child: the child becomes the
   * last child of `parent` and records `parent` as its parent; no other
   * node changes.
   */
  function Attach(nodes: seq<Node>, parent: nat, child: nat): (r: seq<Node>)
    requires parent < |nodes| && child < |nodes| && parent != child
    ensures |r| == |nodes|
    ensures r[parent].children == nodes[parent].children + [child]
    ensures r[child].parent == Some(parent)
    ensures r[parent].(children := nodes[parent].children) == nodes[parent]
    ensures r[child].(parent := nodes[child].parent) == nodes[child]
    ensures forall i :: 0 <= i < |nodes| && i != parent && i != child ==> r[i] == nodes[i]
    ensures WellFormed(nodes) ==> WellFormed(r)
  {
    var withChild := nodes[parent := nodes[parent].(children := nodes[parent].children + [child])];
    withChild[child := withChild[child].(parent := Some(parent))]
  }

  /**
   * `after` extends `before`: nodes are only added, and an existing node
   * keeps every field except that children may be appended to its list.
   */
  predicate Grows(before: seq<Node>, after: seq<Node>) {
    |before| <= |after| &&
    forall i :: 0 <= i < |before| ==>
      after[i].(children := before[i].children) == before[i] && before[i].children <= after[i].children
  }

  lemma GrowsTrans(a: seq<Node>, b: seq<Node>, c: seq<Node>)
    requires Grows(a, b) && Grows(b, c)
    ensures Grows(a, c)
  {
    forall i | 0 <= i < |a|
      ensures c[i].(children := a[i].children) == a[i] && a[i].children <= c[i].children
    {
      assert b[i].children <= c[i].children;
    }
  }

  /** Attaching a freshly appended node extends the arena. */
  lemma AppendAttachGrows(nodes: seq<Node>, n: Node, parent: nat)
    requires parent < |nodes|
    ensures Grows(nodes, Attach(nodes + [n], parent, |nodes|))
  {
  }

  /** The text of the nodes `lo` to `hi`, in the order they were created. */
  function TextOf(nodes: seq<Node>, lo: nat, hi: nat): (s: string)
    requires lo <= hi <= |nodes|
    ensures hi == lo + 1 ==> s == nodes[lo].content
    decreases hi
  {
    if hi == lo then "" else TextOf(nodes, lo, hi - 1) + nodes[hi - 1].content
  }

  lemma {:induction false} TextOfSplit(nodes: seq<Node>, lo: nat, mid: nat, hi: nat)
    requires lo <= mid <= hi <= |nodes|
    ensures TextOf(nodes, lo, hi) == TextOf(nodes, lo, mid) + TextOf(nodes, mid, hi)
    decreases hi
  {
    if hi > mid {
      TextOfSplit(nodes, lo, mid, hi - 1);
    }
  }

  /** The text of a range depends only on the contents of its nodes. */
  lemma {:induction false} TextOfAgree(a: seq<Node>, b: seq<Node>, lo: nat, hi: nat)
    requires lo <= hi <= |a| && hi <= |b|
    requires forall i :: lo <= i < hi ==> a[i].content == b[i].content
    ensures TextOf(a, lo, hi) == TextOf(b, lo, hi)
    decreases hi
  {
    if hi > lo {
      TextOfAgree(a, b, lo, hi - 1);
    }
  }

  /** Growing an arena leaves the text of its existing nodes alone. */
  lemma TextOfGrows(before: seq<Node>, after: seq<Node>, lo: nat, hi: nat)
    requires Grows(before, after) && lo <= hi <= |before|
    ensures TextOf(after, lo, hi) == TextOf(before, lo, hi)
  {
    forall i | lo <= i < hi ensures after[i].content == before[i].content {
      assert after[i].(children := before[i].children) == before[i];
    }
    TextOfAgree(after, before, lo, hi);
  }

  /** A Nokogiri document: the nodes allocated in it so far. */
  class Document {
    var nodes: seq<Node>

    constructor ()
      ensures nodes == []
    {
      nodes := [];
    }

    /** `DocumentFragment.new(document)`. */
    method CreateFragment() returns (f: nat)
      modifies this
      ensures nodes == old(nodes) + [Detached(FragmentNode, "", "", map[])]
      ensures f == |old(nodes)|
    {
      f := |nodes|;
      nodes := nodes + [Detached(FragmentNode, "", "", map[])];
    }

    /** `document.create_element(name, content, attrs)`. */
    method CreateElement(name: string, content: string, attrs: map<Value, Value>) returns (e: nat)
      modifies this
      ensures nodes == old(nodes) + [Element(name, content, attrs)]
      ensures e == |old(nodes)|
    {
      e := |nodes|;
      nodes := nodes + [Element(name, content, attrs)];
    }

    /** `document.create_text_node(text)`. */
    method CreateTextNode(text: string) returns (t: nat)
      modifies this
      ensures nodes == old(nodes) + [Text(text)]
      ensures t == |old(nodes)|
    {
      t := |nodes|;
      nodes := nodes + [Text(text)];
    }

    /** `parent.add_child(child)`. */
    method AddChild(parent: nat, child: nat)
      requires parent < |nodes| && child < |nodes| && parent != child
      modifies this
      ensures nodes == Attach(old(nodes), parent, child)
    {
      nodes := Attach(nodes, parent, child);
    }
  }
}
