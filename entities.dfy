/**
 * Entity decorators: the objects an entity type is rendered with.  A
 * decorator's `call(parent_element, data)` returns the element the
 * entity's text goes under.  `Entities::Link` creates an `a` element and
 * appends it to the parent; `Entities::Null` (whose source is not part of
 * this model) is taken to return the parent itself.
 */
module Entities {
  import opened RubyValues
  import opened NodeTree

  datatype Decorator = NullDecorator | Link(configuration: map<Value, Value>)

  /** `Link.new` without an argument: `{className: nil}`. */
  const DefaultLinkConfiguration: map<Value, Value> := map[Sym("className") := Nil]

  /** `data.fetch(:data, {})` of an entity hash. */
  function LinkData(data: map<Value, Value>): (r: Value)
    ensures Sym("data") !in data ==> r == Hash(map[])
  {
    if Sym("data") in data then data[Sym("data")] else Hash(map[])
  }

  /**
   * The attributes of the link: `href` from the entity's `data[:url]`, and
   * `class` from the configuration's `className` when that is truthy.
   */
  function LinkAttributes(configuration: map<Value, Value>, data: Value): (r: Result<map<Value, Value>>)
    ensures r.Ok? <==> data.Hash? && LinkData(data.h).Hash? && Sym("url") in LinkData(data.h).h
    ensures r.Ok? ==> Sym("href") in r.value && r.value[Sym("href")] == LinkData(data.h).h[Sym("url")]
    ensures r.Ok? ==> (Sym("class") in r.value <==> Truthy(Get(configuration, Sym("className"))))
    ensures r.Ok? && Sym("class") in r.value ==> r.value[Sym("class")] == configuration[Sym("className")]
    ensures r.Ok? ==> r.value.Keys <= {Sym("href"), Sym("class")}
    ensures data.Hash? && LinkData(data.h).Hash? && Sym("url") !in LinkData(data.h).h ==>
      r == Err(KeyError(Sym("url")))
  {
    var inner :- FetchOr(data, Sym("data"), Hash(map[]));
    var url :- Fetch(inner, Sym("url"));
    var args := map[Sym("href") := url];
    if Truthy(Get(configuration, Sym("className"))) then
      Ok(args[Sym("class") := configuration[Sym("className")]])
    else
      Ok(args)
  }

  /** The default configuration never produces a `class` attribute. */
  lemma DefaultLinkHasNoClass(data: Value)
    requires LinkAttributes(DefaultLinkConfiguration, data).Ok?
    ensures LinkAttributes(DefaultLinkConfiguration, data).value.Keys == {Sym("href")}
  {
  }

  /**
   * `Link#call`: a new `a` element, with the attributes above and no text,
   * appended as the last child of the parent; the new element is returned.
   */
  function LinkCallSpec(configuration: map<Value, Value>, nodes: seq<Node>, parent: nat, data: Value):
    (r: Result<(nat, seq<Node>)>)
    requires parent < |nodes|
    ensures r.Ok? <==> LinkAttributes(configuration, data).Ok?
    ensures r.Err? ==> r.error == LinkAttributes(configuration, data).error
    ensures r.Ok? ==> var (e, after) := r.value;
      e == |nodes| && |after| == |nodes| + 1 &&
      after[e] == Element("a", "", LinkAttributes(configuration, data).value).(parent := Some(parent)) &&
      after[parent].children == nodes[parent].children + [e] &&
      after[parent].(children := nodes[parent].children) == nodes[parent] &&
      (forall i :: 0 <= i < |nodes| && i != parent ==> after[i] == nodes[i])
    ensures r.Ok? && WellFormed(nodes) ==> WellFormed(r.value.1)
    ensures r.Ok? ==> Grows(nodes, r.value.1) && TextOf(r.value.1, |nodes|, |r.value.1|) == ""
  {
    var attrs :- LinkAttributes(configuration, data);
    var e := |nodes|;
    var created := nodes + [Element("a", "", attrs)];
    assert WellFormed(nodes) ==> WellFormed(created);
    Ok((e, Attach(created, parent, e)))
  }

  /** `decorator.call(parent_element, data)`. */
  function DecorateSpec(decorator: Decorator, nodes: seq<Node>, parent: nat, data: Value):
    (r: Result<(nat, seq<Node>)>)
    requires parent < |nodes|
    ensures decorator.NullDecorator? ==> r == Ok((parent, nodes))
    ensures r.Ok? ==> r.value.0 < |r.value.1| && |nodes| <= |r.value.1|
    ensures r.Ok? ==> Grows(nodes, r.value.1) && TextOf(r.value.1, |nodes|, |r.value.1|) == ""
  {
    match decorator
    case NullDecorator => Ok((parent, nodes))
    case Link(configuration) => LinkCallSpec(configuration, nodes, parent, data)
  }

  /** `Link#call` on the document the parent belongs to. */
  method LinkCall(configuration: map<Value, Value>, doc: Document, parent: nat, data: Value) returns (r: Result<nat>)
    requires parent < |doc.nodes|
    modifies doc
    ensures var spec := LinkCallSpec(configuration, old(doc.nodes), parent, data);
      (r.Ok? <==> spec.Ok?) &&
      (r.Ok? ==> (r.value, doc.nodes) == spec.value) &&
      (r.Err? ==> r.error == spec.error && doc.nodes == old(doc.nodes))
  {
    var attrs := LinkAttributes(configuration, data);
    if attrs.Err? {
      return Err(attrs.error);
    }
    var e := doc.CreateElement("a", "", attrs.value);
    doc.AddChild(parent, e);
    r := Ok(e);
  }

  /** `decorator.call(parent_element, data)` on the document. */
  method Decorate(decorator: Decorator, doc: Document, parent: nat, data: Value) returns (r: Result<nat>)
    requires parent < |doc.nodes|
    modifies doc
    ensures var spec := DecorateSpec(decorator, old(doc.nodes), parent, data);
      (r.Ok? <==> spec.Ok?) &&
      (r.Ok? ==> (r.value, doc.nodes) == spec.value) &&
      (r.Err? ==> r.error == spec.error && doc.nodes == old(doc.nodes))
  {
    match decorator {
      case NullDecorator => r := Ok(parent);
      case Link(configuration) => r := LinkCall(configuration, doc, parent, data);
    }
  }
}
