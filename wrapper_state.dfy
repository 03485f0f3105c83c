/**
 * `DraftjsExporter::WrapperState`: creates one element per block in a
 * shared document fragment, and puts consecutive blocks whose options name
 * the same wrapper (element name and attributes) into one wrapper element.
 * The current wrapper is a pair (element, options); options are `{}` after
 * a reset and `[name, attrs]` for a real wrapper, so a reset never matches.
 */
module Wrapper {
  import opened RubyValues
  import opened Content
  import opened NodeTree

  // ---------------------------------------------------------------------
  // Choosing the block options
  // ---------------------------------------------------------------------

  /** `block.fetch(:data, {})`. */
  function BlockData(block: Block): (v: Value)
    ensures block.data.Missing? ==> v == Hash(map[])
    ensures block.data.Present? ==> v == Hash(block.data.value)
  {
    match block.data
    case Missing => Hash(map[])
    case NilField => Nil
    case Present(m) => Hash(m)
  }

  /** `match_data.all? { |key, value| block_data[key] == value }` for one entry of the atomic map. */
  function Matches(entry: Value, blockData: Value): (r: Result<bool>)
    ensures r.Ok? ==> entry.Hash?
    ensures entry.Hash? && Sym("match_data") !in entry.h ==> r == Ok(true)
    ensures entry.Hash? && Sym("match_data") in entry.h && entry.h[Sym("match_data")].Hash? && blockData.Hash? ==>
      var md := entry.h[Sym("match_data")].h;
      r == Ok(forall k :: k in md ==> Get(blockData.h, k) == md[k])
  {
    var md :- FetchOr(entry, Sym("match_data"), Hash(map[]));
    if !md.Hash? then Err(Unsupported("all? over a match_data that is not a hash"))
    else if md.h == map[] then Ok(true)
    else match blockData
      case Hash(data) => Ok(forall k :: k in md.h ==> Get(data, k) == md.h[k])
      case Nil => Err(NoMethodOnNil("[]"))
      case _ => Err(Unsupported("[] on block data that is not a hash"))
  }

  /** An entry without `match_data`, or with an empty one, matches every block. */
  lemma EmptyMatchDataMatchesAll(entry: map<Value, Value>, blockData: Value)
    requires Sym("match_data") !in entry || entry[Sym("match_data")] == Hash(map[])
    ensures Matches(Hash(entry), blockData) == Ok(true)
  {
  }

  /** `atomic_block_map.find { ... }`: the position of the first matching entry. */
  function FindEntry(entries: seq<Value>, blockData: Value): (r: Result<Option<nat>>)
    ensures r.Ok? && r.value.Some? ==>
      r.value.value < |entries| && Matches(entries[r.value.value], blockData) == Ok(true) &&
      forall j :: 0 <= j < r.value.value ==> Matches(entries[j], blockData) == Ok(false)
    ensures r.Ok? && r.value.None? ==> forall j :: 0 <= j < |entries| ==> Matches(entries[j], blockData) == Ok(false)
    ensures r.Err? ==> exists j :: 0 <= j < |entries| && Matches(entries[j], blockData).Err? &&
                                 forall i :: 0 <= i < j ==> Matches(entries[i], blockData) == Ok(false)
    decreases |entries|
  {
    if entries == [] then Ok(None)
    else
      var m :- Matches(entries[0], blockData);
      if m then Ok(Some(0))
      else
        var rest :- FindEntry(entries[1..], blockData);
        match rest
        case None => Ok(None)
        case Some(i) => Ok(Some(i + 1))
  }

  /** `find_atomic_block_options`: the first matching entry's `options`, nil when none matches. */
  function FindAtomicBlockOptions(blockMap: map<Value, Value>, block: Block): (r: Result<Value>)
    ensures Str("atomic") !in blockMap ==> r == Ok(Nil)
    ensures var atomic := Get(blockMap, Str("atomic"));
      atomic.Array? ==>
        var found := FindEntry(atomic.a, BlockData(block));
        (r.Ok? <==> found.Ok?) &&
        (r.Ok? && found.value.None? ==> r.value == Nil) &&
        (r.Ok? && found.value.Some? ==> r.value == Get(atomic.a[found.value.value].h, Sym("options")))
  {
    var blockData := BlockData(block);
    var atomic := if Str("atomic") in blockMap then blockMap[Str("atomic")] else Array([]);
    match atomic
    case Array(entries) =>
      var found :- FindEntry(entries, blockData);
      (match found
       case None => Ok(Nil)
       case Some(i) => Ok(Get(entries[i].h, Sym("options"))))
    case Nil => Err(NoMethodOnNil("find"))
    case _ => Err(Unsupported("find over an atomic map that is not an array"))
  }

  /**
   * The options `element_for` creates the block with: `block_map[type]`
   * for a type other than `'atomic'`; for an atomic block the matching
   * entry's options, or `block_map['unstyled']` when there are none.
   */
  function OptionsFor(blockMap: map<Value, Value>, block: Block): (r: Result<Value>)
    ensures BlockType(block) != Str("atomic") ==> r == Ok(Get(blockMap, BlockType(block)))
    ensures BlockType(block) == Str("atomic") ==>
      var found := FindAtomicBlockOptions(blockMap, block);
      (r.Ok? <==> found.Ok?) &&
      (r.Ok? && found.value == Nil ==> r.value == Get(blockMap, Str("unstyled"))) &&
      (r.Ok? && found.value != Nil ==> r.value == found.value)
  {
    var blockType := BlockType(block);
    if blockType != Str("atomic") then Ok(Get(blockMap, blockType))
    else
      var found :- FindAtomicBlockOptions(blockMap, block);
      if found == Nil then Ok(Get(blockMap, Str("unstyled"))) else Ok(found)
  }

  /** A block without a type is created as an `'unstyled'` block. */
  lemma MissingTypeIsUnstyled(blockMap: map<Value, Value>, block: Block)
    requires block.blockType.Missing?
    ensures OptionsFor(blockMap, block) == Ok(Get(blockMap, Str("unstyled")))
  {
  }

  /** An atomic block that no entry matches falls back to the `'unstyled'` options. */
  lemma UnmatchedAtomicIsUnstyled(blockMap: map<Value, Value>, block: Block)
    requires BlockType(block) == Str("atomic")
    requires Get(blockMap, Str("atomic")).Array?
    requires FindEntry(Get(blockMap, Str("atomic")).a, BlockData(block)) == Ok(None)
    ensures OptionsFor(blockMap, block) == Ok(Get(blockMap, Str("unstyled")))
  {
  }

  // ---------------------------------------------------------------------
  // Creating the element and choosing its parent
  // ---------------------------------------------------------------------

  /** The arguments of `document.create_element`: `options[:element]`, `fetch(:prefix, '')`, `fetch(:attrs, {})`. */
  function ElementArgs(options: Value): (r: Result<(string, string, map<Value, Value>)>)
    ensures r.Ok? ==> options.Hash?
    ensures options.Hash? && Sym("element") in options.h && options.h[Sym("element")].Str? &&
            Sym("prefix") !in options.h && Sym("attrs") !in options.h ==>
      r == Ok((options.h[Sym("element")].s, "", map[]))
    ensures r.Ok? && Sym("prefix") in options.h ==> options.h[Sym("prefix")] == Str(r.value.1)
    ensures r.Ok? && Sym("attrs") in options.h ==> options.h[Sym("attrs")] == Hash(r.value.2)
    ensures options == Nil ==> r == Err(NoMethodOnNil("[]"))
  {
    match options
    case Hash(h) =>
      var prefix := if Sym("prefix") in h then h[Sym("prefix")] else Str("");
      var attrs := if Sym("attrs") in h then h[Sym("attrs")] else Hash(map[]);
      var name :- ElementName(Get(h, Sym("element")));
      if !prefix.Str? then Err(Unsupported("a prefix that is not a string"))
      else if !attrs.Hash? then Err(Unsupported("attrs that are not a hash"))
      else Ok((name, prefix.s, attrs.h))
    case Nil => Err(NoMethodOnNil("[]"))
    case _ => Err(WrongReceiver("[]"))
  }

  /** Which parent `parent_for` picks. */
  datatype ParentChoice =
    | Reset                                                           // no wrapper: the fragment
    | Reuse                                                           // same wrapper spec: the current wrapper
    | NewWrapper(name: string, attrs: map<Value, Value>, spec: Value) // another spec: a fresh wrapper

  /** `[options[:wrapper][:element], options[:wrapper].fetch(:attrs, {})]`. */
  function WrapperSpec(options: map<Value, Value>): (r: Result<Value>)
    requires Sym("wrapper") in options
    ensures r.Ok? ==> r.value.Array? && |r.value.a| == 2
  {
    match options[Sym("wrapper")]
    case Hash(w) =>
      Ok(Array([Get(w, Sym("element")), if Sym("attrs") in w then w[Sym("attrs")] else Hash(map[])]))
    case Nil => Err(NoMethodOnNil("[]"))
    case _ => Err(WrongReceiver("[]"))
  }

  /** `parent_for(options)` without its effects. */
  function ChooseParent(options: map<Value, Value>, current: Value): (r: Result<ParentChoice>)
    ensures Sym("wrapper") !in options ==> r == Ok(Reset)
    ensures Sym("wrapper") in options ==>
      var spec := WrapperSpec(options);
      (spec.Err? ==> r == Err(spec.error)) &&
      (spec.Ok? && spec.value == current ==> r == Ok(Reuse)) &&
      (r.Ok? && r.value.NewWrapper? ==> spec.Ok? && spec.value != current && r.value.spec == spec.value)
    ensures r.Ok? && r.value.NewWrapper? ==> r.value.spec.Array?
  {
    if Sym("wrapper") !in options then Ok(Reset)
    else
      var spec :- WrapperSpec(options);
      if spec == current then Ok(Reuse)
      else
        var name :- ElementName(spec.a[0]);
        if !spec.a[1].Hash? then Err(Unsupported("wrapper attrs that are not a hash"))
        else Ok(NewWrapper(name, spec.a[1].h, spec))
  }

  /** After a reset the options are `{}`, which no wrapper spec equals: a wrapped block opens a new wrapper. */
  lemma ResetNeverReused(options: map<Value, Value>)
    requires Sym("wrapper") in options && ChooseParent(options, Hash(map[])).Ok?
    ensures ChooseParent(options, Hash(map[])).value.NewWrapper?
  {
  }

  /** The state of the wrapper machine: the document's nodes and the current (element, options) pair. */
  datatype WState = WState(nodes: seq<Node>, wrapper: nat, options: Value)

  predicate Within(fragment: nat, st: WState) {
    fragment < |st.nodes| && st.wrapper < |st.nodes|
  }

  /** The effect of `parent_for`: which element is the parent, and the state afterwards. */
  function ParentFor(fragment: nat, st: WState, choice: ParentChoice): (r: (nat, WState))
    requires Within(fragment, st)
    ensures Within(fragment, r.1) && r.0 == r.1.wrapper
    ensures choice.Reset? ==> r == (fragment, st.(wrapper := fragment, options := Hash(map[])))
    ensures choice.Reuse? ==> r == (st.wrapper, st)
    ensures choice.NewWrapper? ==>
      var w := |st.nodes|;
      r.0 == w && r.1.options == choice.spec && |r.1.nodes| == w + 1 &&
      r.1.nodes[w] == Element(choice.name, "", choice.attrs).(parent := Some(fragment)) &&
      r.1.nodes[fragment].children == st.nodes[fragment].children + [w]
  {
    match choice
    case Reset => (fragment, st.(wrapper := fragment, options := Hash(map[])))
    case Reuse => (st.wrapper, st)
    case NewWrapper(name, attrs, spec) =>
      var w := |st.nodes|;
      var nodes := Attach(st.nodes + [Element(name, "", attrs)], fragment, w);
      (w, WState(nodes, w, spec))
  }

  /**
   * `create_element(block_options)`: the block element is created with its
   * prefix as text and its attributes, then appended to `parent_for`.
   */
  function CreateElementSpec(fragment: nat, st: WState, options: Value): (r: Result<(nat, WState)>)
    requires Within(fragment, st)
    ensures r.Ok? ==> Within(fragment, r.value.1) && r.value.0 == |st.nodes| && |st.nodes| < |r.value.1.nodes|
    ensures r.Ok? ==> ElementArgs(options).Ok? && ChooseParent(options.h, st.options).Ok?
    // existing nodes keep every field; at most children are appended to them
    ensures r.Ok? ==> Grows(st.nodes, r.value.1.nodes)
    ensures r.Ok? ==> var (e, after) := r.value;
      var (name, prefix, attrs) := ElementArgs(options).value;
      after.nodes[e] == Element(name, prefix, attrs).(parent := Some(after.wrapper)) &&
      after.nodes[after.wrapper].children != [] &&
      after.nodes[after.wrapper].children[|after.nodes[after.wrapper].children| - 1] == e
  {
    var (name, prefix, attrs) :- ElementArgs(options);
    var e := |st.nodes|;
    var created := st.(nodes := st.nodes + [Element(name, prefix, attrs)]);
    var choice :- ChooseParent(options.h, st.options);
    var (p, after) := ParentFor(fragment, created, choice);
    ParentForGrows(fragment, st, Element(name, prefix, attrs), choice);
    Ok((e, after.(nodes := Attach(after.nodes, p, e))))
  }

  /** Choosing the parent of a freshly created node only adds nodes and children. */
  lemma ParentForGrows(fragment: nat, st: WState, n: Node, choice: ParentChoice)
    requires Within(fragment, st)
    ensures var created := st.(nodes := st.nodes + [n]);
      Grows(st.nodes, ParentFor(fragment, created, choice).1.nodes)
  {
    var created := st.(nodes := st.nodes + [n]);
    if choice.NewWrapper? {
      AppendAttachGrows(created.nodes, Element(choice.name, "", choice.attrs), fragment);
      GrowsTrans(st.nodes, created.nodes, ParentFor(fragment, created, choice).1.nodes);
    }
  }

  /**
   * What `create_element` leaves behind when it raises.  Nothing changes
   * when its arguments cannot be read; otherwise `document.create_element`
   * has already run when `parent_for` raises, so the new element stays in
   * the document with no parent.  The wrapper pair is never touched.
   */
  function CreateElementFailure(st: WState, options: Value): (r: WState)
    ensures r.wrapper == st.wrapper && r.options == st.options
    ensures |st.nodes| <= |r.nodes| && r.nodes[..|st.nodes|] == st.nodes
    ensures |r.nodes| == |st.nodes| + 1 <==> ElementArgs(options).Ok?
    ensures |r.nodes| != |st.nodes| + 1 ==> r == st
    ensures ElementArgs(options).Ok? ==> var (name, prefix, attrs) := ElementArgs(options).value;
      r.nodes[|st.nodes|] == Element(name, prefix, attrs) && r.nodes[|st.nodes|].parent.None?
  {
    match ElementArgs(options)
    case Err(_) => st
    case Ok((name, prefix, attrs)) => st.(nodes := st.nodes + [Element(name, prefix, attrs)])
  }

  /** `element_for(block)`. */
  function ElementForSpec(blockMap: map<Value, Value>, fragment: nat, st: WState, block: Block): (r: Result<(nat, WState)>)
    requires Within(fragment, st)
    ensures r.Ok? ==> Within(fragment, r.value.1)
    // the options lookup raises first; otherwise the block element is created
    ensures OptionsFor(blockMap, block).Err? ==> r == Err(OptionsFor(blockMap, block).error)
    ensures r.Ok? ==>
      OptionsFor(blockMap, block).Ok? && ElementArgs(OptionsFor(blockMap, block).value).Ok? &&
      r.value.0 == |st.nodes| && |st.nodes| < |r.value.1.nodes| && Grows(st.nodes, r.value.1.nodes)
    ensures r.Ok? ==> var (e, after) := r.value;
      var (name, prefix, attrs) := ElementArgs(OptionsFor(blockMap, block).value).value;
      after.nodes[e] == Element(name, prefix, attrs).(parent := Some(after.wrapper))
  {
    var options :- OptionsFor(blockMap, block);
    CreateElementSpec(fragment, st, options)
  }

  // ---------------------------------------------------------------------
  // Properties of the wrapper machine
  // ---------------------------------------------------------------------

  /** Options without a wrapper put the element straight under the fragment and reset the wrapper. */
  lemma NoWrapperGoesToFragment(fragment: nat, st: WState, options: Value)
    requires Within(fragment, st)
    requires CreateElementSpec(fragment, st, options).Ok? && Sym("wrapper") !in options.h
    ensures var (e, after) := CreateElementSpec(fragment, st, options).value;
      after.wrapper == fragment && after.options == Hash(map[]) &&
      after.nodes[e].parent == Some(fragment) && |after.nodes| == |st.nodes| + 1
  {
  }

  /** Options whose wrapper spec equals the current one reuse the current wrapper and create nothing else. */
  lemma SameSpecReusesWrapper(fragment: nat, st: WState, options: Value)
    requires Within(fragment, st)
    requires CreateElementSpec(fragment, st, options).Ok? && Sym("wrapper") in options.h
    requires WrapperSpec(options.h) == Ok(st.options)
    ensures var (e, after) := CreateElementSpec(fragment, st, options).value;
      after.wrapper == st.wrapper && after.options == st.options &&
      after.nodes[e].parent == Some(st.wrapper) && |after.nodes| == |st.nodes| + 1
  {
  }

  /** A different wrapper spec opens a fresh wrapper under the fragment, holding the element. */
  lemma OtherSpecOpensWrapper(fragment: nat, st: WState, options: Value)
    requires Within(fragment, st)
    requires CreateElementSpec(fragment, st, options).Ok? && Sym("wrapper") in options.h
    requires WrapperSpec(options.h).Ok? && WrapperSpec(options.h).value != st.options
    ensures var (e, after) := CreateElementSpec(fragment, st, options).value;
      var w := |st.nodes| + 1;
      after.wrapper == w && after.options == WrapperSpec(options.h).value &&
      after.nodes[w].parent == Some(fragment) && after.nodes[e].parent == Some(w) &&
      after.nodes[fragment].children == st.nodes[fragment].children + [w] &&
      |after.nodes| == |st.nodes| + 2
  {
  }

  /** Two blocks in a row with the same wrapped options share one wrapper element. */
  lemma ConsecutiveBlocksShareWrapper(fragment: nat, st: WState, options: Value)
    requires Within(fragment, st)
    requires CreateElementSpec(fragment, st, options).Ok? && Sym("wrapper") in options.h
    ensures var (e1, mid) := CreateElementSpec(fragment, st, options).value;
      var second := CreateElementSpec(fragment, mid, options);
      second.Ok? &&
      var (e2, after) := second.value;
      after.wrapper == mid.wrapper && after.nodes[e1].parent == after.nodes[e2].parent == Some(mid.wrapper)
  {
    var (e1, mid) := CreateElementSpec(fragment, st, options).value;
    assert WrapperSpec(options.h) == Ok(mid.options);
    SameSpecReusesWrapper(fragment, mid, options);
  }

  // ---------------------------------------------------------------------
  // The state object
  // ---------------------------------------------------------------------

  class WrapperState {
    const blockMap: map<Value, Value>
    const doc: Document
    const fragment: nat
    var wrapper: nat
    var options: Value

    predicate Valid()
      reads this, doc
    {
      Within(fragment, State())
    }

    function State(): WState
      reads this, doc
    {
      WState(doc.nodes, wrapper, options)
    }

    /** `WrapperState.new(block_map)`: a new document with an empty fragment, and the wrapper reset. */
    constructor (blockMap: map<Value, Value>)
      ensures this.blockMap == blockMap && fresh(doc)
      ensures doc.nodes == [Detached(FragmentNode, "", "", map[])] && fragment == 0
      ensures wrapper == fragment && options == Hash(map[])
      ensures Valid()
    {
      this.blockMap := blockMap;
      var d := new Document();
      var f := d.CreateFragment();
      doc := d;
      fragment := f;
      wrapper := f;
      options := Hash(map[]);
    }

    /** `set_wrapper(element, options)`. */
    method SetWrapper(element: nat, spec: Value)
      modifies this
      ensures wrapper == element && options == spec
    {
      wrapper := element;
      options := spec;
    }

    /** `reset_wrapper`: back to (fragment, {}), and the fragment is the parent. */
    method ResetWrapper() returns (parent: nat)
      requires Valid()
      modifies this
      ensures Valid() && parent == fragment
      ensures wrapper == fragment && options == Hash(map[])
    {
      SetWrapper(fragment, Hash(map[]));
      parent := wrapper;
    }

    /** `create_wrapper(options)`: a new element under the fragment becomes the wrapper. */
    method CreateWrapper(name: string, attrs: map<Value, Value>, spec: Value) returns (w: nat)
      requires Valid()
      modifies this, doc
      ensures Valid()
      ensures w == |old(doc.nodes)|
      ensures doc.nodes == Attach(old(doc.nodes) + [Element(name, "", attrs)], fragment, w)
      ensures wrapper == w && options == spec
    {
      w := doc.CreateElement(name, "", attrs);
      var f := ResetWrapper();
      doc.AddChild(f, w);
      SetWrapper(w, spec);
    }

    /** `parent_for(options)`. */
    method ParentForOptions(blockOptions: map<Value, Value>) returns (r: Result<nat>)
      requires Valid()
      modifies this, doc
      ensures Valid()
      ensures var choice := ChooseParent(blockOptions, old(options));
        (r.Ok? <==> choice.Ok?) &&
        (r.Ok? ==> (r.value, State()) == ParentFor(fragment, old(State()), choice.value)) &&
        (r.Err? ==> r.error == choice.error && State() == old(State()))
    {
      var choice := ChooseParent(blockOptions, options);
      if choice.Err? {
        return Err(choice.error);
      }
      match choice.value {
        case Reset =>
          var p := ResetWrapper();
          r := Ok(p);
        case Reuse =>
          r := Ok(wrapper);
        case NewWrapper(name, attrs, spec) =>
          var w := CreateWrapper(name, attrs, spec);
          r := Ok(w);
      }
    }

    /** `create_element(block_options)`; after a failure the document may hold the detached element. */
    method CreateElement(blockOptions: Value) returns (r: Result<nat>)
      requires Valid()
      modifies this, doc
      ensures Valid()
      ensures var spec := CreateElementSpec(fragment, old(State()), blockOptions);
        (r.Ok? <==> spec.Ok?) &&
        (r.Ok? ==> (r.value, State()) == spec.value) &&
        (r.Err? ==> r.error == spec.error && State() == CreateElementFailure(old(State()), blockOptions))
    {
      var args := ElementArgs(blockOptions);
      if args.Err? {
        return Err(args.error);
      }
      var (name, prefix, attrs) := args.value;
      var e := doc.CreateElement(name, prefix, attrs);
      var parent := ParentForOptions(blockOptions.h);
      if parent.Err? {
        return Err(parent.error);
      }
      doc.AddChild(parent.value, e);
      r := Ok(e);
    }

    /** `element_for(block)`. */
    method ElementFor(block: Block) returns (r: Result<nat>)
      requires Valid()
      modifies this, doc
      ensures Valid()
      ensures var spec := ElementForSpec(blockMap, fragment, old(State()), block);
        (r.Ok? <==> spec.Ok?) &&
        (r.Ok? ==> (r.value, State()) == spec.value) &&
        (r.Err? ==> r.error == spec.error)
      // a raise in the options lookup changes nothing; a later one leaves what create_element leaves
      ensures r.Err? ==> var options := OptionsFor(blockMap, block);
        State() == if options.Err? then old(State()) else CreateElementFailure(old(State()), options.value)
    {
      var blockOptions := OptionsFor(blockMap, block);
      if blockOptions.Err? {
        return Err(blockOptions.error);
      }
      r := CreateElement(blockOptions.value);
    }
  }
}
