/**
 * `DraftjsExporter::HTML`: each block of a content state becomes one
 * element in a document of its own.  The block's command groups are
 * replayed against an entity stack and a style list, and after each group
 * its text segment is appended under the current entity element, as a
 * text node when no style is active and as a styled `span` otherwise.
 */
module Html {
  import opened RubyValues
  import opened Content
  import opened NodeTree
  import opened Commands
  import opened Style
  import opened Entities
  import opened Entity

  /** `HTML.new(block_map:, style_map:, entity_decorators:)`. */
  datatype Config = Config(blockMap: map<Value, Value>, styleMap: StyleMap, decorators: Decorators)

  // ---------------------------------------------------------------------
  // block_options
  // ---------------------------------------------------------------------

  /** The one-character string at `i`, or nil past the end: `String#[]` and `Symbol#[]` with an index. */
  function CharAt(s: string, i: nat): (v: Value)
    ensures i < |s| ==> v == Str([s[i]])
    ensures i >= |s| ==> v == Nil
  {
    if i < |s| then Str([s[i]]) else Nil
  }

  /**
   * `wrapper[0]` and `wrapper[1]`: elements of an array, entries of a hash,
   * characters of a string or symbol, and the low bits of an integer.
   */
  function WrapperParts(wrapper: Value): (r: Result<(Value, Value)>)
    ensures wrapper.Array? && |wrapper.a| >= 2 ==> r == Ok((wrapper.a[0], wrapper.a[1]))
    ensures wrapper.Array? && |wrapper.a| == 1 ==> r == Ok((wrapper.a[0], Nil))
    ensures wrapper.Str? ==> r == Ok((CharAt(wrapper.s, 0), CharAt(wrapper.s, 1)))
    ensures r.Ok? <==> !(wrapper.Nil? || wrapper.Bool?)
  {
    match wrapper
    case Array(a) => Ok((if 0 < |a| then a[0] else Nil, if 1 < |a| then a[1] else Nil))
    case Hash(h) => Ok((Get(h, Int(0)), Get(h, Int(1))))
    case Str(s) => Ok((CharAt(s, 0), CharAt(s, 1)))
    case Sym(n) => Ok((CharAt(n, 0), CharAt(n, 1)))
    case Int(n) => Ok((Int(n % 2), Int(n / 2 % 2)))
    case Nil => Err(NoMethodOnNil("[]"))
    case Bool(_) => Err(WrongReceiver("[]"))
  }

  /** `config = wrapper[1] || {}`. */
  function WrapperConfig(second: Value): (r: Value)
    ensures Truthy(second) ==> r == second
    ensures !Truthy(second) ==> r == Hash(map[])
  {
    if Truthy(second) then second else Hash(map[])
  }

  /**
   * `block_options(type)`: `[element]` for a block type without a wrapper;
   * `[wrapper[0], attrs]` otherwise, where attrs holds `class` exactly when
   * the wrapper's configuration has a `className` key.
   */
  function BlockOptions(blockMap: map<Value, Value>, blockType: Value): (r: Result<seq<Value>>)
    ensures blockType !in blockMap ==> r == Err(KeyError(blockType))
    ensures blockType in blockMap && blockMap[blockType].Hash? && Sym("wrapper") !in blockMap[blockType].h ==>
      var options := blockMap[blockType].h;
      (r.Ok? <==> Sym("element") in options) &&
      (r.Ok? ==> r.value == [options[Sym("element")]])
    ensures blockType in blockMap && blockMap[blockType].Hash? && Sym("wrapper") in blockMap[blockType].h && r.Ok? ==>
      var parts := WrapperParts(blockMap[blockType].h[Sym("wrapper")]);
      parts.Ok? && WrapperConfig(parts.value.1).Hash? && |r.value| == 2 && r.value[0] == parts.value.0 &&
      var config := WrapperConfig(parts.value.1).h;
      r.value[1] == Hash(if Sym("className") in config then map[Sym("class") := config[Sym("className")]] else map[])
  {
    var options :- Fetch(Hash(blockMap), blockType);
    var hasWrapper :- HasKey(options, Sym("wrapper"));
    if !hasWrapper then
      var element :- Fetch(options, Sym("element"));
      Ok([element])
    else
      var (name, second) :- WrapperParts(options.h[Sym("wrapper")]);
      var config := WrapperConfig(second);
      var hasClass :- HasKey(config, Sym("className"));
      var attrs := if hasClass then map[Sym("class") := config.h[Sym("className")]] else map[];
      Ok([name, Hash(attrs)])
  }

  /** `document.create_element(*options)`: a name, then an optional attribute hash. */
  function CreateArgs(options: seq<Value>): (r: Result<(string, map<Value, Value>)>)
    ensures |options| == 1 && options[0].Str? ==> r == Ok((options[0].s, map[]))
    ensures |options| == 2 && options[0].Str? && options[1].Hash? ==> r == Ok((options[0].s, options[1].h))
  {
    if |options| == 0 || |options| > 2 then Err(Unsupported("create_element arguments"))
    else
      var name :- ElementName(options[0]);
      if |options| == 1 then Ok((name, map[]))
      else if options[1].Hash? then Ok((name, options[1].h))
      else Err(Unsupported("create_element content that is not a hash"))
  }

  // ---------------------------------------------------------------------
  // add_node
  // ---------------------------------------------------------------------

  /**
   * `add_node(element, text, state)`: a text node when no style is active,
   * otherwise a `span` with the segment as text and the style attributes;
   * appended as the last child of the current element.
   */
  function AddNodeSpec(nodes: seq<Node>, parent: Option<nat>, text: Option<string>, styleMap: StyleMap, styles: seq<Value>):
    (r: Result<seq<Node>>)
    requires parent.Some? ==> parent.value < |nodes|
    ensures parent.None? ==> r == Err(NoMethodOnNil("document"))
    ensures r.Ok? <==> parent.Some? && text.Some? && (IsText(styles) || ElementAttributes(styleMap, styles).Ok?)
    ensures r.Ok? ==> var n := |nodes|;
      |r.value| == n + 1 &&
      r.value[n].content == text.value && r.value[n].parent == parent &&
      r.value[parent.value].children == nodes[parent.value].children + [n] &&
      (IsText(styles) ==> r.value[n] == Text(text.value).(parent := parent)) &&
      (!IsText(styles) ==>
        r.value[n] == Element("span", text.value, ElementAttributes(styleMap, styles).value).(parent := parent)) &&
      forall i :: 0 <= i < n ==> r.value[i].content == nodes[i].content
  {
    if parent.None? then Err(NoMethodOnNil("document"))
    else if IsText(styles) then
      if text.None? then Err(Unsupported("a nil text segment"))
      else Ok(Attach(nodes + [Text(text.value)], parent.value, |nodes|))
    else
      var attrs :- ElementAttributes(styleMap, styles);
      if text.None? then Err(Unsupported("a nil text segment"))
      else Ok(Attach(nodes + [Element("span", text.value, attrs)], parent.value, |nodes|))
  }

  // ---------------------------------------------------------------------
  // Replaying command groups
  // ---------------------------------------------------------------------

  /** The state `block_contents` works on: the entity stack, the active styles and the document. */
  datatype RenderState = RenderState(stack: seq<Entry>, styles: seq<Value>, nodes: seq<Node>)

  predicate RenderValid(st: RenderState) {
    StackWithin(st.stack, st.nodes)
  }

  /** `entity_state.apply(command)` and then `style_state.apply(command)`. */
  function ApplyCommand(cfg: Config, entityMap: Value, st: RenderState, cmd: Command): (r: Result<RenderState>)
    requires RenderValid(st)
    ensures r.Ok? ==> RenderValid(r.value) && Grows(st.nodes, r.value.nodes)
    ensures r.Ok? ==> TextOf(r.value.nodes, |st.nodes|, |r.value.nodes|) == ""
  {
    var (stack, nodes) :- EntityStep(cfg.decorators, entityMap, st.stack, st.nodes, cmd);
    Ok(RenderState(stack, StyleStep(st.styles, cmd), nodes))
  }

  function ApplyCommands(cfg: Config, entityMap: Value, st: RenderState, cmds: seq<Command>): (r: Result<RenderState>)
    requires RenderValid(st)
    ensures r.Ok? ==> RenderValid(r.value) && Grows(st.nodes, r.value.nodes)
    decreases |cmds|
  {
    if cmds == [] then Ok(st)
    else
      var mid :- ApplyCommands(cfg, entityMap, st, cmds[..|cmds| - 1]);
      var last :- ApplyCommand(cfg, entityMap, mid, cmds[|cmds| - 1]);
      GrowsTrans(st.nodes, mid.nodes, last.nodes);
      Ok(last)
  }

  /** Commands create entity elements only, and those carry no text. */
  lemma {:induction false} ApplyCommandsAddNoText(cfg: Config, entityMap: Value, st: RenderState, cmds: seq<Command>)
    requires RenderValid(st) && ApplyCommands(cfg, entityMap, st, cmds).Ok?
    ensures var after := ApplyCommands(cfg, entityMap, st, cmds).value.nodes;
      TextOf(after, |st.nodes|, |after|) == ""
    decreases |cmds|
  {
    if cmds != [] {
      var mid := ApplyCommands(cfg, entityMap, st, cmds[..|cmds| - 1]).value;
      var after := ApplyCommands(cfg, entityMap, st, cmds).value.nodes;
      ApplyCommandsAddNoText(cfg, entityMap, st, cmds[..|cmds| - 1]);
      TextOfSplit(after, |st.nodes|, |mid.nodes|, |after|);
      TextOfGrows(mid.nodes, after, |st.nodes|, |mid.nodes|);
    }
  }

  /** One group: all its commands, then its segment under the current parent. */
  function ReplaySegment(cfg: Config, entityMap: Value, st: RenderState, seg: Segment): (r: Result<RenderState>)
    requires RenderValid(st)
    ensures r.Ok? ==> RenderValid(r.value) && Grows(st.nodes, r.value.nodes)
    ensures r.Ok? ==>
      var mid := ApplyCommands(cfg, entityMap, st, seg.commands);
      mid.Ok? && r.value.stack == mid.value.stack && r.value.styles == mid.value.styles &&
      CurrentParent(mid.value.stack).Some? && seg.text.Some? &&
      |r.value.nodes| == |mid.value.nodes| + 1 && Grows(mid.value.nodes, r.value.nodes) &&
      r.value.nodes[|mid.value.nodes|].content == seg.text.value &&
      r.value.nodes[|mid.value.nodes|].parent == CurrentParent(mid.value.stack)
  {
    var mid :- ApplyCommands(cfg, entityMap, st, seg.commands);
    var nodes :- AddNodeSpec(mid.nodes, CurrentParent(mid.stack), seg.text, cfg.styleMap, mid.styles);
    AppendGrows(mid.nodes, nodes);
    GrowsTrans(st.nodes, mid.nodes, nodes);
    Ok(mid.(nodes := nodes))
  }

  /** What `AddNodeSpec` does to existing nodes. */
  lemma AppendGrows(before: seq<Node>, after: seq<Node>)
    requires |after| == |before| + 1
    requires forall i :: 0 <= i < |before| ==>
      after[i].(children := before[i].children) == before[i] && before[i].children <= after[i].children
    ensures Grows(before, after)
  {
  }

  /** A group contributes exactly its segment's text. */
  lemma ReplaySegmentText(cfg: Config, entityMap: Value, st: RenderState, seg: Segment)
    requires RenderValid(st) && ReplaySegment(cfg, entityMap, st, seg).Ok?
    ensures var after := ReplaySegment(cfg, entityMap, st, seg).value.nodes;
      TextOf(after, |st.nodes|, |after|) == SegmentText(seg)
  {
    var mid := ApplyCommands(cfg, entityMap, st, seg.commands).value;
    var after := ReplaySegment(cfg, entityMap, st, seg).value.nodes;
    ApplyCommandsAddNoText(cfg, entityMap, st, seg.commands);
    OneMoreText(mid.nodes, after, |st.nodes|, seg.text.value);
  }

  /** Appending one node after a range with no text: the text is that node's content. */
  lemma OneMoreText(before: seq<Node>, after: seq<Node>, lo: nat, text: string)
    requires lo <= |before| && TextOf(before, lo, |before|) == ""
    requires Grows(before, after) && |after| == |before| + 1 && after[|before|].content == text
    ensures TextOf(after, lo, |after|) == text
  {
    var n := |before|;
    TextOfGrows(before, after, lo, n);
    TextOfSplit(after, lo, n, |after|);
  }

  function ReplayAll(cfg: Config, entityMap: Value, st: RenderState, segs: seq<Segment>): (r: Result<RenderState>)
    requires RenderValid(st)
    ensures r.Ok? ==> RenderValid(r.value) && Grows(st.nodes, r.value.nodes)
    decreases |segs|
  {
    if segs == [] then Ok(st)
    else
      var mid :- ReplayAll(cfg, entityMap, st, segs[..|segs| - 1]);
      var last :- ReplaySegment(cfg, entityMap, mid, segs[|segs| - 1]);
      GrowsTrans(st.nodes, mid.nodes, last.nodes);
      Ok(last)
  }

  /** The nodes a replay creates carry the segments' texts, in order. */
  lemma {:induction false} ReplayAllText(cfg: Config, entityMap: Value, st: RenderState, segs: seq<Segment>)
    requires RenderValid(st) && ReplayAll(cfg, entityMap, st, segs).Ok?
    ensures var after := ReplayAll(cfg, entityMap, st, segs).value.nodes;
      TextOf(after, |st.nodes|, |after|) == Joined(segs)
    decreases |segs|
  {
    if segs != [] {
      var mid := ReplayAll(cfg, entityMap, st, segs[..|segs| - 1]).value;
      var after := ReplayAll(cfg, entityMap, st, segs).value.nodes;
      ReplayAllText(cfg, entityMap, st, segs[..|segs| - 1]);
      ReplaySegmentText(cfg, entityMap, mid, segs[|segs| - 1]);
      TextOfSplit(after, |st.nodes|, |mid.nodes|, |after|);
      TextOfGrows(mid.nodes, after, |st.nodes|, |mid.nodes|);
    }
  }

  /** One more command of a list. */
  lemma ApplyCommandsSnoc(cfg: Config, entityMap: Value, st: RenderState, cmds: seq<Command>, j: nat, mid: RenderState)
    requires RenderValid(st) && j < |cmds| && ApplyCommands(cfg, entityMap, st, cmds[..j]) == Ok(mid)
    ensures RenderValid(mid)
    ensures ApplyCommands(cfg, entityMap, st, cmds[..j + 1]) == ApplyCommand(cfg, entityMap, mid, cmds[j])
  {
    assert cmds[..j + 1][..j] == cmds[..j];
  }

  /** One more group of a block. */
  lemma ReplayAllSnoc(cfg: Config, entityMap: Value, st: RenderState, segs: seq<Segment>, i: nat, mid: RenderState)
    requires RenderValid(st) && i < |segs| && ReplayAll(cfg, entityMap, st, segs[..i]) == Ok(mid)
    ensures RenderValid(mid)
    ensures ReplayAll(cfg, entityMap, st, segs[..i + 1]) == ReplaySegment(cfg, entityMap, mid, segs[i])
  {
    assert segs[..i + 1][..i] == segs[..i];
  }

  /** A successful entity step extends a successful command prefix by one command. */
  lemma ApplyCommandsStep(cfg: Config, entityMap: Value, st: RenderState, cmds: seq<Command>, j: nat,
                          cur: RenderState, stack: seq<Entry>, nodes: seq<Node>)
    requires RenderValid(st) && j < |cmds| && ApplyCommands(cfg, entityMap, st, cmds[..j]) == Ok(cur)
    requires RenderValid(cur)
    requires EntityStep(cfg.decorators, entityMap, cur.stack, cur.nodes, cmds[j]) == Ok((stack, nodes))
    ensures ApplyCommands(cfg, entityMap, st, cmds[..j + 1])
      == Ok(RenderState(stack, StyleStep(cur.styles, cmds[j]), nodes))
  {
    ApplyCommandsSnoc(cfg, entityMap, st, cmds, j, cur);
  }

  /** A failing entity step makes the whole command list fail with its error. */
  lemma ApplyCommandsStepFails(cfg: Config, entityMap: Value, st: RenderState, cmds: seq<Command>, j: nat,
                               cur: RenderState)
    requires RenderValid(st) && j < |cmds| && ApplyCommands(cfg, entityMap, st, cmds[..j]) == Ok(cur)
    requires RenderValid(cur)
    requires EntityStep(cfg.decorators, entityMap, cur.stack, cur.nodes, cmds[j]).Err?
    ensures ApplyCommands(cfg, entityMap, st, cmds).Err?
    ensures ApplyCommands(cfg, entityMap, st, cmds).error
      == EntityStep(cfg.decorators, entityMap, cur.stack, cur.nodes, cmds[j]).error
  {
    ApplyCommandsSnoc(cfg, entityMap, st, cmds, j, cur);
    ApplyCommandsFails(cfg, entityMap, st, cmds, j + 1);
  }

  /** The first failing command decides the outcome of a command list. */
  lemma {:induction false} ApplyCommandsFails(cfg: Config, entityMap: Value, st: RenderState, cmds: seq<Command>, k: nat)
    requires RenderValid(st) && k <= |cmds| && ApplyCommands(cfg, entityMap, st, cmds[..k]).Err?
    ensures ApplyCommands(cfg, entityMap, st, cmds) == ApplyCommands(cfg, entityMap, st, cmds[..k])
    decreases |cmds|
  {
    if k == |cmds| {
      assert cmds[..k] == cmds;
    } else {
      var pre := cmds[..|cmds| - 1];
      assert pre[..k] == cmds[..k];
      ApplyCommandsFails(cfg, entityMap, st, pre, k);
    }
  }

  /** The first failing group decides the outcome of a block. */
  lemma {:induction false} ReplayAllFails(cfg: Config, entityMap: Value, st: RenderState, segs: seq<Segment>, k: nat)
    requires RenderValid(st) && k <= |segs| && ReplayAll(cfg, entityMap, st, segs[..k]).Err?
    ensures ReplayAll(cfg, entityMap, st, segs) == ReplayAll(cfg, entityMap, st, segs[..k])
    decreases |segs|
  {
    if k == |segs| {
      assert segs[..k] == segs;
    } else {
      var pre := segs[..|segs| - 1];
      assert pre[..k] == segs[..k];
      ReplayAllFails(cfg, entityMap, st, pre, k);
    }
  }

  /** `block_contents(element, block, entity_map)` on the document's nodes. */
  function BlockContentsSpec(cfg: Config, entityMap: Value, nodes: seq<Node>, element: nat, block: Block): (r: Result<seq<Node>>)
    requires element < |nodes|
    ensures r.Ok? ==> Grows(nodes, r.value)
    ensures block.text.Missing? ==> r == Err(KeyError(Sym("text")))
  {
    var segs :- BuildCommandGroups(block);
    var st :- ReplayAll(cfg, entityMap, RenderState([Entry(element, Nil)], [], nodes), segs);
    Ok(st.nodes)
  }

  /**
   * When every range lies within the text, the nodes `block_contents`
   * creates carry the block's text exactly, in order: no character is lost
   * or repeated, whatever the ranges and entities.
   */
  lemma BlockContentsKeepsText(cfg: Config, entityMap: Value, nodes: seq<Node>, element: nat, block: Block)
    requires element < |nodes|
    requires block.text.Present? && block.inlineStyleRanges.Present? && block.entityRanges.Present?
    requires RangesWithin(block.text.value, block.inlineStyleRanges.value, block.entityRanges.value)
    requires BlockContentsSpec(cfg, entityMap, nodes, element, block).Ok?
    ensures var after := BlockContentsSpec(cfg, entityMap, nodes, element, block).value;
      TextOf(after, |nodes|, |after|) == block.text.value
  {
    var segs := BuildCommandGroups(block).value;
    SegmentsTileText(block.text.value, block.inlineStyleRanges.value, block.entityRanges.value);
    ReplayAllText(cfg, entityMap, RenderState([Entry(element, Nil)], [], nodes), segs);
  }

  // ---------------------------------------------------------------------
  // content_state_block and call
  // ---------------------------------------------------------------------

  /** A rendered block: its document and the block element in it. */
  datatype BlockOutput = BlockOutput(nodes: seq<Node>, root: nat)

  /** The two nodes a block's document starts with: the fragment and the block element. */
  function BlockSkeleton(name: string, attrs: map<Value, Value>): (nodes: seq<Node>)
    ensures |nodes| == 2 && nodes[0].kind == FragmentNode && nodes[1] == Element(name, "", attrs)
  {
    [Detached(FragmentNode, "", "", map[]), Element(name, "", attrs)]
  }

  /**
   * `content_state_block(block, entity_map)`: a new document with a
   * fragment (node 0) and the block element (node 1), filled by
   * `block_contents` and then appended to the fragment.
   */
  function ContentStateBlockSpec(cfg: Config, block: Block, entityMap: Value): (r: Result<BlockOutput>)
    ensures BlockType(block) !in cfg.blockMap ==> r == Err(KeyError(BlockType(block)))
  {
    var options :- BlockOptions(cfg.blockMap, BlockType(block));
    var (name, attrs) :- CreateArgs(options);
    var nodes :- BlockContentsSpec(cfg, entityMap, BlockSkeleton(name, attrs), 1, block);
    Ok(BlockOutput(Attach(nodes, 0, 1), 1))
  }

  /**
   * A rendered block is the element `block_options` names, with its
   * attributes, as the last child of the fragment, holding the block's text.
   */
  lemma ContentStateBlockShape(cfg: Config, block: Block, entityMap: Value)
    requires ContentStateBlockSpec(cfg, block, entityMap).Ok?
    ensures var out := ContentStateBlockSpec(cfg, block, entityMap).value;
      var options := BlockOptions(cfg.blockMap, BlockType(block));
      options.Ok? && CreateArgs(options.value).Ok? &&
      out.root == 1 && |out.nodes| >= 2 &&
      out.nodes[0].kind == FragmentNode && out.nodes[0].children != [] &&
      out.nodes[0].children[|out.nodes[0].children| - 1] == 1 &&
      out.nodes[1].kind == ElementNode && out.nodes[1].parent == Some(0) &&
      out.nodes[1].name == CreateArgs(options.value).value.0 &&
      out.nodes[1].attrs == CreateArgs(options.value).value.1
    ensures (block.text.Present? && block.inlineStyleRanges.Present? && block.entityRanges.Present? &&
      RangesWithin(block.text.value, block.inlineStyleRanges.value, block.entityRanges.value)) ==>
      var out := ContentStateBlockSpec(cfg, block, entityMap).value;
      TextOf(out.nodes, 2, |out.nodes|) == block.text.value
  {
    var options := BlockOptions(cfg.blockMap, BlockType(block)).value;
    var (name, attrs) := CreateArgs(options).value;
    var skeleton := BlockSkeleton(name, attrs);
    var nodes := BlockContentsSpec(cfg, entityMap, skeleton, 1, block).value;
    var out := Attach(nodes, 0, 1);
    assert nodes[0].(children := skeleton[0].children) == skeleton[0];
    assert nodes[1].(children := skeleton[1].children) == skeleton[1];
    if block.text.Present? && block.inlineStyleRanges.Present? && block.entityRanges.Present? &&
      RangesWithin(block.text.value, block.inlineStyleRanges.value, block.entityRanges.value)
    {
      BlockContentsKeepsText(cfg, entityMap, skeleton, 1, block);
      TextOfAgree(nodes, out, 2, |out|);
    }
  }

  /** `content_state.fetch(:entityMap, {})`. */
  function EntityMapValue(cs: ContentState): (v: Value)
    ensures cs.entityMap.Missing? ==> v == Hash(map[])
    ensures cs.entityMap.Present? ==> v == Hash(cs.entityMap.value)
  {
    match cs.entityMap
    case Missing => Hash(map[])
    case NilField => Nil
    case Present(m) => Hash(m)
  }

  /** `xs.map { |x| f(x) }`, where the first call that raises ends the map. */
  function MapRaising<A, B>(f: A -> Result<B>, xs: seq<A>): (r: Result<seq<B>>)
    ensures r.Ok? ==> |r.value| == |xs|
    decreases |xs|
  {
    if xs == [] then Ok([])
    else
      var pre :- MapRaising(f, xs[..|xs| - 1]);
      var last :- f(xs[|xs| - 1]);
      Ok(pre + [last])
  }

  /** The map succeeds exactly when every call does, and keeps the order of its input. */
  lemma {:induction false} MapRaisingSpec<A, B>(f: A -> Result<B>, xs: seq<A>)
    ensures var r := MapRaising(f, xs);
      (r.Ok? <==> forall i :: 0 <= i < |xs| ==> f(xs[i]).Ok?) &&
      (r.Ok? ==> forall i :: 0 <= i < |xs| ==> f(xs[i]) == Ok(r.value[i]))
    decreases |xs|
  {
    if xs != [] {
      var n := |xs|;
      var pre := xs[..n - 1];
      MapRaisingSpec(f, pre);
      assert forall i :: 0 <= i < n - 1 ==> pre[i] == xs[i];
      var r := MapRaising(f, xs);
      var rp := MapRaising(f, pre);
      if rp.Err? {
        var k :| 0 <= k < n - 1 && f(pre[k]).Err?;
        assert f(xs[k]).Err?;
      } else if f(xs[n - 1]).Ok? {
        assert r.value == rp.value + [f(xs[n - 1]).value];
      }
    }
  }

  /** One more element of the map. */
  lemma MapRaisingSnoc<A, B>(f: A -> Result<B>, xs: seq<A>, i: nat, acc: seq<B>)
    requires i < |xs| && MapRaising(f, xs[..i]) == Ok(acc)
    ensures f(xs[i]).Ok? ==> MapRaising(f, xs[..i + 1]) == Ok(acc + [f(xs[i]).value])
    ensures f(xs[i]).Err? ==> MapRaising(f, xs[..i + 1]) == Err(f(xs[i]).error)
  {
    assert xs[..i + 1][..i] == xs[..i];
  }

  /** A failing element decides the outcome of the map. */
  lemma {:induction false} MapRaisingFails<A, B>(f: A -> Result<B>, xs: seq<A>, k: nat)
    requires k <= |xs| && MapRaising(f, xs[..k]).Err?
    ensures MapRaising(f, xs) == MapRaising(f, xs[..k])
    decreases |xs|
  {
    if k == |xs| {
      assert xs[..k] == xs;
    } else {
      var pre := xs[..|xs| - 1];
      assert pre[..k] == xs[..k];
      MapRaisingFails(f, pre, k);
    }
  }

  /** The blocks rendered one by one, in order; the first failure is raised. */
  function RenderBlocks(cfg: Config, blocks: seq<Block>, entityMap: Value): (r: Result<seq<BlockOutput>>)
    ensures r.Ok? ==> |r.value| == |blocks|
  {
    MapRaising(b => ContentStateBlockSpec(cfg, b, entityMap), blocks)
  }

  /**
   * `call(content_state)`: the rendered blocks in block order, standing for
   * the concatenation of their HTML; `[].inject(:+)` is nil, so a content
   * state without blocks gives None.
   */
  function CallSpec(cfg: Config, cs: ContentState): (r: Result<Option<seq<BlockOutput>>>)
    ensures cs.blocks.Missing? ==> r == Ok(None)
    ensures cs.blocks.NilField? ==> r == Err(NoMethodOnNil("map"))
    ensures cs.blocks.Present? ==>
      var rendered := RenderBlocks(cfg, cs.blocks.value, EntityMapValue(cs));
      (r.Ok? <==> rendered.Ok?) &&
      (r.Ok? && cs.blocks.value == [] ==> r.value.None?) &&
      (r.Ok? && cs.blocks.value != [] ==> r.value == Some(rendered.value))
  {
    match cs.blocks
    case Missing => Ok(None)
    case NilField => Err(NoMethodOnNil("map"))
    case Present(blocks) =>
      var outs :- RenderBlocks(cfg, blocks, EntityMapValue(cs));
      Ok(if outs == [] then None else Some(outs))
  }

  /** A missing entity map is read as an empty one. */
  lemma MissingEntityMapIsEmpty(cfg: Config, cs: ContentState)
    ensures CallSpec(cfg, cs.(entityMap := Missing)) == CallSpec(cfg, cs.(entityMap := Present(map[])))
  {
  }

  /**
   * `call` succeeds exactly when every block renders, and then yields one
   * output per block, each its own block's rendering, in block order.
   */
  lemma CallRendersEveryBlock(cfg: Config, cs: ContentState)
    requires cs.blocks.Present?
    ensures CallSpec(cfg, cs).Ok? <==>
      forall i :: 0 <= i < |cs.blocks.value| ==> ContentStateBlockSpec(cfg, cs.blocks.value[i], EntityMapValue(cs)).Ok?
    ensures CallSpec(cfg, cs).Ok? && cs.blocks.value != [] ==> (
      var outs := CallSpec(cfg, cs).value;
      outs.Some? && |outs.value| == |cs.blocks.value| &&
      forall i :: 0 <= i < |cs.blocks.value| ==>
        ContentStateBlockSpec(cfg, cs.blocks.value[i], EntityMapValue(cs)) == Ok(outs.value[i]))
  {
    MapRaisingSpec(b => ContentStateBlockSpec(cfg, b, EntityMapValue(cs)), cs.blocks.value);
  }

  // ---------------------------------------------------------------------
  // The exporter's methods
  // ---------------------------------------------------------------------

  /** `add_node(element, text, state)`. */
  method AddNode(doc: Document, parent: Option<nat>, text: Option<string>, state: StyleState) returns (r: Result<()>)
    requires parent.Some? ==> parent.value < |doc.nodes|
    modifies doc
    ensures var spec := AddNodeSpec(old(doc.nodes), parent, text, state.styleMap, state.styles);
      (r.Ok? <==> spec.Ok?) &&
      (r.Ok? ==> doc.nodes == spec.value) &&
      (r.Err? ==> r.error == spec.error && doc.nodes == old(doc.nodes))
  {
    if parent.None? {
      return Err(NoMethodOnNil("document"));
    }
    var node: nat;
    if IsText(state.styles) {
      if text.None? {
        return Err(Unsupported("a nil text segment"));
      }
      node := doc.CreateTextNode(text.value);
    } else {
      var attrs := ElementAttributes(state.styleMap, state.styles);
      if attrs.Err? {
        return Err(attrs.error);
      }
      if text.None? {
        return Err(Unsupported("a nil text segment"));
      }
      node := doc.CreateElement("span", text.value, attrs.value);
    }
    doc.AddChild(parent.value, node);
    r := Ok(());
  }

  /** The commands of one group: `entity_state.apply` and then `style_state.apply` for each, in order. */
  method ApplyGroup(cfg: Config, entityMap: Value, entityState: EntityState, styleState: StyleState,
                    cmds: seq<Command>, ghost before: RenderState)
    returns (r: Result<()>)
    requires entityState.Valid() && RenderValid(before)
    requires before == RenderState(entityState.stack, styleState.styles, entityState.doc.nodes)
    requires entityState.decorators == cfg.decorators && entityState.entityMap == entityMap
    modifies entityState, entityState.doc, styleState
    ensures entityState.Valid()
    ensures var spec := ApplyCommands(cfg, entityMap, before, cmds);
      (r.Ok? <==> spec.Ok?) &&
      (r.Ok? ==> RenderState(entityState.stack, styleState.styles, entityState.doc.nodes) == spec.value) &&
      (r.Err? ==> r.error == spec.error)
  {
    var j := 0;
    ghost var cur := before;
    while j < |cmds|
      invariant 0 <= j <= |cmds|
      invariant entityState.Valid()
      invariant cur == RenderState(entityState.stack, styleState.styles, entityState.doc.nodes)
      invariant ApplyCommands(cfg, entityMap, before, cmds[..j]) == Ok(cur)
    {
      var applied := entityState.Apply(cmds[j]);
      if applied.Err? {
        ApplyCommandsStepFails(cfg, entityMap, before, cmds, j, cur);
        return Err(applied.error);
      }
      styleState.Apply(cmds[j]);
      ApplyCommandsStep(cfg, entityMap, before, cmds, j, cur, entityState.stack, entityState.doc.nodes);
      cur := RenderState(entityState.stack, styleState.styles, entityState.doc.nodes);
      j := j + 1;
    }
    assert cmds[..j] == cmds;
    r := Ok(());
  }

  /** One group: its commands go to the two states, then its segment is added under the current parent. */
  method RenderGroup(cfg: Config, entityMap: Value, entityState: EntityState, styleState: StyleState,
                     seg: Segment, ghost before: RenderState)
    returns (r: Result<()>)
    requires entityState.Valid() && RenderValid(before)
    requires before == RenderState(entityState.stack, styleState.styles, entityState.doc.nodes)
    requires entityState.decorators == cfg.decorators && entityState.entityMap == entityMap
    requires styleState.styleMap == cfg.styleMap
    modifies entityState, entityState.doc, styleState
    ensures entityState.Valid()
    ensures var spec := ReplaySegment(cfg, entityMap, before, seg);
      (r.Ok? <==> spec.Ok?) &&
      (r.Ok? ==> RenderState(entityState.stack, styleState.styles, entityState.doc.nodes) == spec.value) &&
      (r.Err? ==> r.error == spec.error)
  {
    var applied := ApplyGroup(cfg, entityMap, entityState, styleState, seg.commands, before);
    if applied.Err? {
      return Err(applied.error);
    }
    var added := AddNode(entityState.doc, CurrentParent(entityState.stack), seg.text, styleState);
    if added.Err? {
      return Err(added.error);
    }
    r := Ok(());
  }

  /** The loop over a block's groups, in offset order; the first failing group ends it. */
  method ReplayGroups(cfg: Config, entityMap: Value, entityState: EntityState, styleState: StyleState,
                      segs: seq<Segment>, ghost init: RenderState)
    returns (r: Result<()>)
    requires entityState.Valid() && RenderValid(init)
    requires init == RenderState(entityState.stack, styleState.styles, entityState.doc.nodes)
    requires entityState.decorators == cfg.decorators && entityState.entityMap == entityMap
    requires styleState.styleMap == cfg.styleMap
    modifies entityState, entityState.doc, styleState
    ensures var spec := ReplayAll(cfg, entityMap, init, segs);
      (r.Ok? <==> spec.Ok?) &&
      (r.Ok? ==> entityState.doc.nodes == spec.value.nodes) &&
      (r.Err? ==> r.error == spec.error)
  {
    var i := 0;
    ghost var cur := init;
    while i < |segs|
      invariant 0 <= i <= |segs|
      invariant entityState.Valid()
      invariant cur == RenderState(entityState.stack, styleState.styles, entityState.doc.nodes)
      invariant ReplayAll(cfg, entityMap, init, segs[..i]) == Ok(cur)
    {
      ReplayAllSnoc(cfg, entityMap, init, segs, i, cur);
      var rendered := RenderGroup(cfg, entityMap, entityState, styleState, segs[i], cur);
      if rendered.Err? {
        ReplayAllFails(cfg, entityMap, init, segs, i + 1);
        return Err(rendered.error);
      }
      cur := RenderState(entityState.stack, styleState.styles, entityState.doc.nodes);
      i := i + 1;
    }
    assert segs[..i] == segs;
    r := Ok(());
  }

  /**
   * `block_contents(element, block, entity_map)`: fresh style and entity
   * states rooted at the element, then every group in offset order.
   */
  method BlockContents(cfg: Config, doc: Document, element: nat, block: Block, entityMap: Value, ghost nodes0: seq<Node>)
    returns (r: Result<()>)
    requires element < |doc.nodes| && nodes0 == doc.nodes
    modifies doc
    ensures var spec := BlockContentsSpec(cfg, entityMap, nodes0, element, block);
      (r.Ok? <==> spec.Ok?) &&
      (r.Ok? ==> doc.nodes == spec.value) &&
      (r.Err? ==> r.error == spec.error)
  {
    var styleState := new StyleState(cfg.styleMap);
    var entityState := new EntityState(element, cfg.decorators, entityMap, doc);
    var groups := BuildCommandGroups(block);
    if groups.Err? {
      return Err(groups.error);
    }
    r := ReplayGroups(cfg, entityMap, entityState, styleState, groups.value, RenderState([Entry(element, Nil)], [], doc.nodes));
  }

  /** `content_state_block(block, entity_map)`. */
  method ContentStateBlock(cfg: Config, block: Block, entityMap: Value) returns (r: Result<BlockOutput>)
    ensures r == ContentStateBlockSpec(cfg, block, entityMap)
  {
    var doc := new Document();
    var fragment := doc.CreateFragment();
    var options := BlockOptions(cfg.blockMap, BlockType(block));
    if options.Err? {
      return Err(options.error);
    }
    var args := CreateArgs(options.value);
    if args.Err? {
      return Err(args.error);
    }
    var element := doc.CreateElement(args.value.0, "", args.value.1);
    assert doc.nodes == BlockSkeleton(args.value.0, args.value.1);
    var filled := BlockContents(cfg, doc, element, block, entityMap, doc.nodes);
    if filled.Err? {
      return Err(filled.error);
    }
    doc.AddChild(fragment, element);
    r := Ok(BlockOutput(doc.nodes, element));
  }

  /** `call(content_state)`. */
  method Call(cfg: Config, cs: ContentState) returns (r: Result<Option<seq<BlockOutput>>>)
    ensures r == CallSpec(cfg, cs)
  {
    var blocks: seq<Block>;
    match cs.blocks {
      case Missing => blocks := [];
      case NilField => return Err(NoMethodOnNil("map"));
      case Present(bs) => blocks := bs;
    }
    var entityMap := EntityMapValue(cs);
    ghost var render := b => ContentStateBlockSpec(cfg, b, entityMap);
    var outs: seq<BlockOutput> := [];
    var i := 0;
    while i < |blocks|
      invariant 0 <= i <= |blocks|
      invariant MapRaising(render, blocks[..i]) == Ok(outs)
    {
      MapRaisingSnoc(render, blocks, i, outs);
      var out := ContentStateBlock(cfg, blocks[i], entityMap);
      assert render(blocks[i]) == out;
      if out.Err? {
        MapRaisingFails(render, blocks, i + 1);
        return Err(out.error);
      }
      outs := outs + [out.value];
      i := i + 1;
    }
    assert blocks[..i] == blocks;
    r := Ok(if outs == [] then None else Some(outs));
  }
}
