/**
 * `DraftjsExporter::EntityState`: a stack of (element, entity details)
 * pairs.  The bottom entry is the block element with nil details; a
 * `start_entity` command pushes the element its decorator builds under the
 * current top, and a `stop_entity` command pops, but only when it names
 * the entity that is open on top.  Crossing entity ranges therefore raise
 * `InvalidEntity`.
 */
module Entity {
  import opened RubyValues
  import opened Content
  import opened NodeTree
  import opened DefaultItem
  import opened Entities

  /** `entity_decorators`: entity type to decorator; an entry may hold nil. */
  type Decorators = map<Value, Option<Decorator>>

  /** One stack entry: the element text goes under, and the entity it renders (nil for the root). */
  datatype Entry = Entry(element: nat, details: Value)

  /** Every element on the stack is a node of the document. */
  predicate StackWithin(stack: seq<Entry>, nodes: seq<Node>) {
    forall i :: 0 <= i < |stack| ==> stack[i].element < |nodes|
  }

  /**
   * `entity_for(key)`: the entity stored under `key.to_s`, else under
   * `key.to_s.to_sym`; nil when neither holds a non-nil entry.
   */
  function EntityFor(entityMap: Value, key: Value): (r: Result<Value>)
    ensures entityMap.Hash? && ToS(key).Some? ==>
      var m := entityMap.h;
      var s := ToS(key).value;
      r == Ok(if Get(m, Str(s)) != Nil then Get(m, Str(s)) else Get(m, Sym(s)))
    ensures entityMap == Nil && ToS(key).Some? ==> r == Err(NoMethodOnNil("fetch"))
  {
    var s :- match ToS(key) {
      case Some(s) => Ok(s)
      case None => Err(Unsupported("inspect of a hash or array entity key"))
    };
    var byString :- FetchOr(entityMap, Str(s), Nil);
    // the first fetch succeeded, so the map is a hash and the second cannot fail
    var bySymbol := Get(entityMap.h, Sym(s));
    Ok(if byString != Nil then byString else bySymbol)
  }

  /** The integer key 0 and the string and symbol keys `'0'` find the same entity. */
  lemma KeyFormsAgree(entityMap: map<Value, Value>)
    ensures EntityFor(Hash(entityMap), Int(0)) == EntityFor(Hash(entityMap), Str("0"))
    ensures EntityFor(Hash(entityMap), Sym("0")) == EntityFor(Hash(entityMap), Str("0"))
  {
    assert NatToString(0) == "0";
    assert ToS(Int(0)) == Some("0");
  }

  /** An entity stored only under the symbol `:'0'` is found from the integer key 0. */
  lemma SymbolKeyFound(details: Value)
    requires details != Nil
    ensures EntityFor(Hash(map[Sym("0") := details]), Int(0)) == Ok(details)
  {
    KeyFormsAgree(map[Sym("0") := details]);
  }

  /** `fetch_or_default_item(entity_details.fetch(:type))`. */
  function DecoratorFor(decorators: Decorators, details: Value): (r: Result<Option<Decorator>>)
    ensures details.Hash? && Sym("type") in details.h ==>
      r == FetchOrDefaultItem(decorators, details.h[Sym("type")])
    ensures details.Hash? && Sym("type") !in details.h ==> r == Err(KeyError(Sym("type")))
    ensures details == Nil ==> r == Err(NoMethodOnNil("fetch"))
  {
    var entityType :- Fetch(details, Sym("type"));
    FetchOrDefaultItem(decorators, entityType)
  }

  /** `start_command`. */
  function StartStep(decorators: Decorators, entityMap: Value, stack: seq<Entry>, nodes: seq<Node>, key: Value):
    (r: Result<(seq<Entry>, seq<Node>)>)
    requires StackWithin(stack, nodes)
    ensures r.Ok? ==> var (after, nodes') := r.value;
      EntityFor(entityMap, key).Ok? &&
      |after| == |stack| + 1 && after[..|stack|] == stack &&
      after[|stack|].details == EntityFor(entityMap, key).value &&
      |nodes| <= |nodes'| && StackWithin(after, nodes')
    ensures r.Ok? ==> Grows(nodes, r.value.1) && TextOf(r.value.1, |nodes|, |r.value.1|) == ""
    ensures stack == [] ==> r.Err?
    ensures r.Ok? ==> (
      var details := EntityFor(entityMap, key).value;
      var decorator := DecoratorFor(decorators, details);
      stack != [] && decorator.Ok? && decorator.value.Some? &&
      DecorateSpec(decorator.value.value, nodes, stack[|stack| - 1].element, details)
        == Ok((r.value.0[|stack|].element, r.value.1)))
  {
    var details :- EntityFor(entityMap, key);
    var decorator :- DecoratorFor(decorators, details);
    if stack == [] then Err(NoMethodOnNil("first"))
    else if decorator.None? then Err(NoMethodOnNil("call"))
    else
      var (element, nodes') :- DecorateSpec(decorator.value, nodes, stack[|stack| - 1].element, details);
      Ok((stack + [Entry(element, details)], nodes'))
  }

  /** The details the top entry expects: nil for an empty stack, as `[].last` destructures to nils. */
  function Expected(stack: seq<Entry>): (v: Value)
    ensures stack != [] ==> v == stack[|stack| - 1].details
  {
    if stack == [] then Nil else stack[|stack| - 1].details
  }

  /** `stop_command`. */
  function StopStep(entityMap: Value, stack: seq<Entry>, key: Value): (r: Result<seq<Entry>>)
    ensures r.Ok? <==> EntityFor(entityMap, key).Ok? && EntityFor(entityMap, key).value == Expected(stack)
    ensures r.Ok? && stack != [] ==> r.value == stack[..|stack| - 1]
    ensures EntityFor(entityMap, key).Ok? && EntityFor(entityMap, key).value != Expected(stack) ==>
      r == Err(InvalidEntity(Expected(stack), EntityFor(entityMap, key).value))
  {
    var details :- EntityFor(entityMap, key);
    if Expected(stack) != details then Err(InvalidEntity(Expected(stack), details))
    else Ok(if stack == [] then [] else stack[..|stack| - 1])
  }

  /** `apply(command)` as a function of the stack and the document. */
  function EntityStep(decorators: Decorators, entityMap: Value, stack: seq<Entry>, nodes: seq<Node>, cmd: Command):
    (r: Result<(seq<Entry>, seq<Node>)>)
    requires StackWithin(stack, nodes)
    ensures r.Ok? ==> StackWithin(r.value.0, r.value.1) && |nodes| <= |r.value.1|
    ensures cmd.name == StartEntity ==> r == StartStep(decorators, entityMap, stack, nodes, cmd.data)
    ensures cmd.name == StopEntity ==>
      var stop := StopStep(entityMap, stack, cmd.data);
      (stop.Err? ==> r == Err(stop.error)) && (stop.Ok? ==> r == Ok((stop.value, nodes)))
    ensures cmd.name != StartEntity && cmd.name != StopEntity ==> r == Ok((stack, nodes))
    ensures cmd.name == StopEntity && r.Ok? ==> r.value.1 == nodes
    ensures r.Ok? ==> Grows(nodes, r.value.1) && TextOf(r.value.1, |nodes|, |r.value.1|) == ""
  {
    match cmd.name
    case StartEntity => StartStep(decorators, entityMap, stack, nodes, cmd.data)
    case StopEntity =>
      var after :- StopStep(entityMap, stack, cmd.data);
      Ok((after, nodes))
    case _ => Ok((stack, nodes))
  }

  /** `current_parent`: the top entry's element; nil when the stack is empty. */
  function CurrentParent(stack: seq<Entry>): (r: Option<nat>)
    ensures r.Some? <==> stack != []
    ensures stack != [] ==> r.value == stack[|stack| - 1].element
  {
    if stack == [] then None else Some(stack[|stack| - 1].element)
  }

  /** Applying a list of commands in order; the first failure stops the run. */
  function EntityRun(decorators: Decorators, entityMap: Value, stack: seq<Entry>, nodes: seq<Node>, cmds: seq<Command>):
    (r: Result<(seq<Entry>, seq<Node>)>)
    requires StackWithin(stack, nodes)
    ensures r.Ok? ==> StackWithin(r.value.0, r.value.1)
    decreases |cmds|
  {
    if cmds == [] then Ok((stack, nodes))
    else
      var (s, n) :- EntityRun(decorators, entityMap, stack, nodes, cmds[..|cmds| - 1]);
      EntityStep(decorators, entityMap, s, n, cmds[|cmds| - 1])
  }

  /** Running one more command: the first failure is kept, otherwise the command is applied to the result. */
  lemma EntityRunSnoc(decorators: Decorators, entityMap: Value, stack: seq<Entry>, nodes: seq<Node>,
                      cmds: seq<Command>, c: Command)
    requires StackWithin(stack, nodes)
    ensures var run := EntityRun(decorators, entityMap, stack, nodes, cmds);
      run.Err? ==> EntityRun(decorators, entityMap, stack, nodes, cmds + [c]) == Err(run.error)
    ensures var run := EntityRun(decorators, entityMap, stack, nodes, cmds);
      run.Ok? ==> (EntityRun(decorators, entityMap, stack, nodes, cmds + [c])
        == EntityStep(decorators, entityMap, run.value.0, run.value.1, c))
  {
    assert (cmds + [c])[..|cmds|] == cmds;
  }

  /** Entity starts minus entity stops. */
  function Net(cmds: seq<Command>): int
    decreases |cmds|
  {
    if cmds == [] then 0 else Net(cmds[..|cmds| - 1]) + Delta(cmds[|cmds| - 1])
  }

  function Delta(cmd: Command): int {
    match cmd.name
    case StartEntity => 1
    case StopEntity => -1
    case _ => 0
  }

  /** No prefix stops more entities than it starts. */
  predicate NeverBelow(cmds: seq<Command>) {
    forall k :: 0 <= k <= |cmds| ==> Net(cmds[..k]) >= 0
  }

  /**
   * A successful run that never stops more entities than it started leaves
   * the entries it started with in place and changes the depth by the
   * number of starts minus stops.
   */
  lemma {:induction false} RunKeepsBase(decorators: Decorators, entityMap: Value, stack: seq<Entry>,
                                        nodes: seq<Node>, cmds: seq<Command>)
    requires StackWithin(stack, nodes) && NeverBelow(cmds)
    requires EntityRun(decorators, entityMap, stack, nodes, cmds).Ok?
    ensures var after := EntityRun(decorators, entityMap, stack, nodes, cmds).value.0;
      |after| == |stack| + Net(cmds) && |stack| <= |after| && after[..|stack|] == stack
    decreases |cmds|
  {
    if cmds != [] {
      var pre, last := cmds[..|cmds| - 1], cmds[|cmds| - 1];
      NeverBelowPrefix(cmds);
      EntityRunSnoc(decorators, entityMap, stack, nodes, pre, last);
      assert cmds == pre + [last];
      RunKeepsBase(decorators, entityMap, stack, nodes, pre);
      var (s, n) := EntityRun(decorators, entityMap, stack, nodes, pre).value;
      StepKeepsBase(decorators, entityMap, s, n, last, |stack|);
    }
  }

  /** Dropping the last command keeps a run from going below zero; the last command adds its own delta. */
  lemma NeverBelowPrefix(cmds: seq<Command>)
    requires cmds != [] && NeverBelow(cmds)
    ensures var pre := cmds[..|cmds| - 1];
      NeverBelow(pre) && Net(cmds) >= 0 && Net(cmds) == Net(pre) + Delta(cmds[|cmds| - 1])
  {
    var pre := cmds[..|cmds| - 1];
    forall k | 0 <= k <= |pre| ensures Net(pre[..k]) >= 0 {
      assert pre[..k] == cmds[..k];
    }
    assert cmds[..|cmds|] == cmds;
  }

  /** One successful step changes the depth by its delta and keeps the bottom `base` entries. */
  lemma StepKeepsBase(decorators: Decorators, entityMap: Value, stack: seq<Entry>, nodes: seq<Node>,
                      cmd: Command, base: nat)
    requires StackWithin(stack, nodes) && base <= |stack|
    requires cmd.name == StopEntity ==> base < |stack|
    requires EntityStep(decorators, entityMap, stack, nodes, cmd).Ok?
    ensures var after := EntityStep(decorators, entityMap, stack, nodes, cmd).value.0;
      |after| == |stack| + Delta(cmd) && after[..base] == stack[..base]
  {
    var after := EntityStep(decorators, entityMap, stack, nodes, cmd).value.0;
    if cmd.name == StartEntity {
      assert after[..|stack|] == stack;
      assert after[..base] == after[..|stack|][..base];
    } else if cmd.name == StopEntity {
      assert after == stack[..|stack| - 1];
    }
  }

  /** A balanced run (a LIFO-matched start/stop sequence) returns the stack it started from. */
  lemma BalancedRunRestores(decorators: Decorators, entityMap: Value, stack: seq<Entry>,
                            nodes: seq<Node>, cmds: seq<Command>)
    requires StackWithin(stack, nodes) && NeverBelow(cmds) && Net(cmds) == 0
    requires EntityRun(decorators, entityMap, stack, nodes, cmds).Ok?
    ensures EntityRun(decorators, entityMap, stack, nodes, cmds).value.0 == stack
  {
    RunKeepsBase(decorators, entityMap, stack, nodes, cmds);
  }

  // ---------------------------------------------------------------------
  // Runs whose stops close the open entities in LIFO order
  // ---------------------------------------------------------------------

  /**
   * A start with this key succeeds on any non-empty stack: the entity is
   * found, its type has a non-nil decorator, and a `Link` decorator finds
   * the `:url` it needs.
   */
  predicate StartSucceeds(decorators: Decorators, entityMap: Value, key: Value) {
    EntityFor(entityMap, key).Ok? &&
    var details := EntityFor(entityMap, key).value;
    var decorator := DecoratorFor(decorators, details);
    decorator.Ok? && decorator.value.Some? &&
    (decorator.value.value.Link? ==> LinkAttributes(decorator.value.value.configuration, details).Ok?)
  }

  /** On a non-empty stack a start succeeds exactly when `StartSucceeds` says so. */
  lemma StartSucceedsExactly(decorators: Decorators, entityMap: Value, stack: seq<Entry>, nodes: seq<Node>, key: Value)
    requires StackWithin(stack, nodes) && stack != []
    ensures StartStep(decorators, entityMap, stack, nodes, key).Ok? <==> StartSucceeds(decorators, entityMap, key)
  {
  }

  /** The details a key resolves to, nil when the lookup raises. */
  function Resolved(entityMap: Value, key: Value): Value {
    if EntityFor(entityMap, key).Ok? then EntityFor(entityMap, key).value else Nil
  }

  /** What one command does to the open entities: a start opens one, a stop closes the innermost one. */
  function OpenStep(entityMap: Value, open: seq<Value>, c: Command): seq<Value> {
    match c.name
    case StartEntity => open + [Resolved(entityMap, c.data)]
    case StopEntity => if open == [] then [] else open[..|open| - 1]
    case _ => open
  }

  /** The details of the entities a command list leaves open, innermost last. */
  function Opened(entityMap: Value, cmds: seq<Command>): seq<Value>
    decreases |cmds|
  {
    if cmds == [] then [] else OpenStep(entityMap, Opened(entityMap, cmds[..|cmds| - 1]), cmds[|cmds| - 1])
  }

  /** Every stop names the entity opened last and not yet closed. */
  predicate LifoMatched(entityMap: Value, cmds: seq<Command>) {
    forall k :: 0 <= k < |cmds| && cmds[k].name == StopEntity ==>
      var open := Opened(entityMap, cmds[..k]);
      open != [] && EntityFor(entityMap, cmds[k].data) == Ok(open[|open| - 1])
  }

  /** Every start of the list succeeds on a non-empty stack. */
  predicate StartsSucceed(decorators: Decorators, entityMap: Value, cmds: seq<Command>) {
    forall k :: 0 <= k < |cmds| && cmds[k].name == StartEntity ==> StartSucceeds(decorators, entityMap, cmds[k].data)
  }

  /** Dropping the last command keeps both conditions. */
  lemma LifoPrefix(decorators: Decorators, entityMap: Value, cmds: seq<Command>)
    requires cmds != []
    requires LifoMatched(entityMap, cmds) && StartsSucceed(decorators, entityMap, cmds)
    ensures var pre := cmds[..|cmds| - 1];
      LifoMatched(entityMap, pre) && StartsSucceed(decorators, entityMap, pre)
  {
    var pre := cmds[..|cmds| - 1];
    forall k | 0 <= k < |pre| ensures pre[..k] == cmds[..k] && pre[k] == cmds[k] {
    }
  }

  /** `after` is `base` with one entry per open entity on top, holding that entity's details. */
  predicate OpenOnTop(base: seq<Entry>, after: seq<Entry>, open: seq<Value>) {
    |after| == |base| + |open| && after[..|base|] == base &&
    forall i :: 0 <= i < |open| ==> after[|base| + i].details == open[i]
  }

  /** One command of a LIFO-matched list: it succeeds and keeps the open entities on top of the base. */
  lemma LifoStep(decorators: Decorators, entityMap: Value, base: seq<Entry>, stack: seq<Entry>, nodes: seq<Node>,
                 open: seq<Value>, c: Command)
    requires StackWithin(stack, nodes) && base != [] && OpenOnTop(base, stack, open)
    requires c.name == StartEntity ==> StartSucceeds(decorators, entityMap, c.data)
    requires c.name == StopEntity ==> open != [] && EntityFor(entityMap, c.data) == Ok(open[|open| - 1])
    ensures EntityStep(decorators, entityMap, stack, nodes, c).Ok?
    ensures OpenOnTop(base, EntityStep(decorators, entityMap, stack, nodes, c).value.0, OpenStep(entityMap, open, c))
  {
    if c.name == StartEntity {
      StartSucceedsExactly(decorators, entityMap, stack, nodes, c.data);
      var after := StartStep(decorators, entityMap, stack, nodes, c.data).value.0;
      assert after[..|stack|] == stack;
      assert after[..|base|] == stack[..|base|];
    } else if c.name == StopEntity {
      assert Expected(stack) == stack[|base| + (|open| - 1)].details;
      var after := stack[..|stack| - 1];
      assert after[..|base|] == stack[..|base|];
    }
  }

  /**
   * The converse of `CrossingRaises`: when every start succeeds and every
   * stop closes the innermost open entity, no command raises.  The run
   * keeps the stack it started from and adds one entry per open entity,
   * holding that entity's details.
   */
  lemma {:induction false} LifoRunSucceeds(decorators: Decorators, entityMap: Value, stack: seq<Entry>,
                                           nodes: seq<Node>, cmds: seq<Command>)
    requires StackWithin(stack, nodes) && stack != []
    requires StartsSucceed(decorators, entityMap, cmds) && LifoMatched(entityMap, cmds)
    ensures EntityRun(decorators, entityMap, stack, nodes, cmds).Ok?
    ensures OpenOnTop(stack, EntityRun(decorators, entityMap, stack, nodes, cmds).value.0, Opened(entityMap, cmds))
    decreases |cmds|
  {
    if cmds == [] {
      assert stack[..|stack|] == stack;
    } else {
      var pre, last := cmds[..|cmds| - 1], cmds[|cmds| - 1];
      assert cmds == pre + [last] && cmds[..|pre|] == pre;
      LifoPrefix(decorators, entityMap, cmds);
      LifoRunSucceeds(decorators, entityMap, stack, nodes, pre);
      EntityRunSnoc(decorators, entityMap, stack, nodes, pre, last);
      var (s, n) := EntityRun(decorators, entityMap, stack, nodes, pre).value;
      LifoStep(decorators, entityMap, stack, s, n, Opened(entityMap, pre), last);
    }
  }

  /** In a LIFO-matched list the open entities number the starts minus the stops, and no prefix goes below zero. */
  lemma {:induction false} LifoOpenedIsNet(entityMap: Value, cmds: seq<Command>)
    requires LifoMatched(entityMap, cmds)
    ensures |Opened(entityMap, cmds)| == Net(cmds) && NeverBelow(cmds)
    decreases |cmds|
  {
    if cmds != [] {
      var pre, last := cmds[..|cmds| - 1], cmds[|cmds| - 1];
      forall k | 0 <= k < |pre| ensures pre[..k] == cmds[..k] && pre[k] == cmds[k] {
      }
      assert LifoMatched(entityMap, pre);
      LifoOpenedIsNet(entityMap, pre);
      if last.name == StopEntity {
        assert cmds[..|pre|] == pre;
      }
      forall k | 0 <= k <= |cmds| ensures Net(cmds[..k]) >= 0 {
        if k == |cmds| {
          assert cmds[..k] == cmds;
        } else {
          assert cmds[..k] == pre[..k];
        }
      }
    }
  }

  /** A LIFO-matched list with as many stops as starts, whose starts all succeed, runs and restores the stack. */
  lemma BalancedLifoRunRestores(decorators: Decorators, entityMap: Value, stack: seq<Entry>,
                                nodes: seq<Node>, cmds: seq<Command>)
    requires StackWithin(stack, nodes) && stack != []
    requires StartsSucceed(decorators, entityMap, cmds) && LifoMatched(entityMap, cmds) && Net(cmds) == 0
    ensures EntityRun(decorators, entityMap, stack, nodes, cmds).Ok?
    ensures EntityRun(decorators, entityMap, stack, nodes, cmds).value.0 == stack
  {
    LifoRunSucceeds(decorators, entityMap, stack, nodes, cmds);
    LifoOpenedIsNet(entityMap, cmds);
    BalancedRunRestores(decorators, entityMap, stack, nodes, cmds);
  }

  /**
   * Crossing ranges: after starting A and then B, stopping A raises
   * InvalidEntity naming B's details as expected and A's as found.
   */
  lemma CrossingRaises(decorators: Decorators, entityMap: Value, stack: seq<Entry>, nodes: seq<Node>,
                       a: Value, b: Value, i: int, j: int, k: int)
    requires StackWithin(stack, nodes)
    requires EntityRun(decorators, entityMap, stack, nodes, [Command(StartEntity, i, a), Command(StartEntity, j, b)]).Ok?
    requires EntityFor(entityMap, a).Ok? && EntityFor(entityMap, b).Ok?
    requires EntityFor(entityMap, a).value != EntityFor(entityMap, b).value
    ensures EntityRun(decorators, entityMap, stack, nodes,
      [Command(StartEntity, i, a), Command(StartEntity, j, b), Command(StopEntity, k, a)])
      == Err(InvalidEntity(EntityFor(entityMap, b).value, EntityFor(entityMap, a).value))
  {
    var startA, startB, stopA := Command(StartEntity, i, a), Command(StartEntity, j, b), Command(StopEntity, k, a);
    assert [startA, startB] == [startA] + [startB] && [startA, startB, stopA] == [startA, startB] + [stopA];
    assert [startA] == [] + [startA];
    EntityRunSnoc(decorators, entityMap, stack, nodes, [], startA);
    EntityRunSnoc(decorators, entityMap, stack, nodes, [startA], startB);
    EntityRunSnoc(decorators, entityMap, stack, nodes, [startA, startB], stopA);
    var (s1, n1) := EntityRun(decorators, entityMap, stack, nodes, [startA]).value;
    var (s, n) := EntityRun(decorators, entityMap, stack, nodes, [startA, startB]).value;
    assert Expected(s) == EntityFor(entityMap, b).value by {
      assert EntityRun(decorators, entityMap, stack, nodes, [startA, startB]) == StartStep(decorators, entityMap, s1, n1, b);
    }
  }

  /** A stop whose key differs but resolves to identical details still closes the open entity. */
  lemma StopMatchesByDetails(entityMap: Value, stack: seq<Entry>, k: Value)
    requires stack != [] && EntityFor(entityMap, k) == Ok(stack[|stack| - 1].details)
    ensures StopStep(entityMap, stack, k) == Ok(stack[..|stack| - 1])
  {
  }

  class EntityState {
    const decorators: Decorators
    const entityMap: Value
    const doc: Document
    var stack: seq<Entry>

    predicate Valid()
      reads this, doc
    {
      StackWithin(stack, doc.nodes)
    }

    /** `EntityState.new(root_element, entity_decorators, entity_map)`: the root with nil details. */
    constructor (root: nat, decorators: Decorators, entityMap: Value, doc: Document)
      requires root < |doc.nodes|
      ensures stack == [Entry(root, Nil)]
      ensures this.decorators == decorators && this.entityMap == entityMap && this.doc == doc
      ensures Valid()
    {
      this.decorators := decorators;
      this.entityMap := entityMap;
      this.doc := doc;
      stack := [Entry(root, Nil)];
    }

    /** `apply(command)`; on failure nothing has changed. */
    method Apply(cmd: Command) returns (r: Result<()>)
      requires Valid()
      modifies this, doc
      ensures Valid()
      ensures var spec := EntityStep(decorators, entityMap, old(stack), old(doc.nodes), cmd);
        (r.Ok? <==> spec.Ok?) &&
        (r.Ok? ==> (stack, doc.nodes) == spec.value) &&
        (r.Err? ==> r.error == spec.error && stack == old(stack) && doc.nodes == old(doc.nodes))
    {
      match cmd.name {
        case StartEntity =>
          r := StartCommand(cmd.data);
        case StopEntity =>
          var after := StopStep(entityMap, stack, cmd.data);
          if after.Err? {
            return Err(after.error);
          }
          stack := after.value;
          r := Ok(());
        case _ =>
          r := Ok(());
      }
    }

    /** `start_command`: resolve, choose the decorator, call it on the top element, push. */
    method StartCommand(key: Value) returns (r: Result<()>)
      requires Valid()
      modifies this, doc
      ensures Valid()
      ensures var spec := StartStep(decorators, entityMap, old(stack), old(doc.nodes), key);
        (r.Ok? <==> spec.Ok?) &&
        (r.Ok? ==> (stack, doc.nodes) == spec.value) &&
        (r.Err? ==> r.error == spec.error && stack == old(stack) && doc.nodes == old(doc.nodes))
    {
      var details := EntityFor(entityMap, key);
      if details.Err? {
        return Err(details.error);
      }
      var decorator := DecoratorFor(decorators, details.value);
      if decorator.Err? {
        return Err(decorator.error);
      }
      if stack == [] {
        return Err(NoMethodOnNil("first"));
      }
      if decorator.value.None? {
        return Err(NoMethodOnNil("call"));
      }
      var element := Decorate(decorator.value.value, doc, stack[|stack| - 1].element, details.value);
      if element.Err? {
        return Err(element.error);
      }
      stack := stack + [Entry(element.value, details.value)];
      r := Ok(());
    }
  }
}
