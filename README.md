# draftjs_exporter in Dafny

A model of the core of `draftjs_exporter`, the Ruby library that turns a
Draft.js content state (blocks of text with inline style ranges, entity
ranges and an entity map) into HTML, together with proofs about it.

The pieces follow the library's files:

- `ruby_values.dfy` (module `RubyValues`). Ruby's dynamic values: nil,
  booleans, integers, strings, symbols, hashes and arrays. It also holds the
  hash operations the code relies on (`fetch`, `fetch` with a default, `[]`,
  `key?`, `to_s`, truthiness) and a `Result` type for the exceptions the
  code can raise.
- `content.dfy` (module `Content`). A content state, its blocks and ranges,
  and the positional commands (`start_text`, `stop_text`,
  `start_inline_style`, …). A hash entry of a block is `Missing`, `NilField`
  or `Present`, because `fetch` treats an absent key and a nil value
  differently.
- `node_tree.dfy` (module `NodeTree`). The HTML document. It is an arena of
  nodes addressed by index, each with a kind, name, content, attributes,
  parent and ordered children. `Document` is a class whose methods create
  nodes and attach a node as the last child of another (`add_child`).
- `default_item.dfy` (module `DefaultItem`). The `fetch_or_default_item`
  lookup that `has_default_item_in` installs. `StyleState#fetch_or_default_style`
  has the same code and is modelled by the same function.
- `entities.dfy` (module `Entities`). The link decorator and the null
  decorator.
- `entity_state.dfy` (module `Entity`). The entity stack machine. The
  `EntityState` class pushes a decorator-built element on `start_entity`. It
  pops on `stop_entity` only when the resolved entity equals the top entry's,
  and raises `InvalidEntity` otherwise.
- `style_state.dfy` (module `Style`). The list of active styles (the
  `StyleState` class) and the CSS built from it: declarations merged in style
  order, camelCase keys hyphenated.
- `wrapper_state.dfy` (module `Wrapper`). The single-level wrapper machine.
  Consecutive blocks with an equal wrapper spec share one wrapper element; a
  block without a wrapper resets it; atomic blocks pick their options by the
  first matching `match_data`.
- `commands.dfy` (module `Commands`) and `html.dfy` (module `Html`). The
  exporter itself.
  - `build_commands` produces the command list.
  - `group_by(&:index).sort` groups it into ascending offsets.
  - The text is sliced into one segment per group.
  - `block_contents` replays each group against the entity and style state,
    then appends the segment under the current entity element.
  - `call` renders each block into a document of its own.

Each state-changing operation is a method of a class, or a method on a
`Document`. Its contract ties the new state to a pure function of the old
one (`EntityStep`, `StyleStep`, `CreateElementSpec`, `BlockContentsSpec`, …).
The properties the library promises are proved about those functions.

Hash order matters in one place: CSS declarations are rendered in the order
their keys were first inserted. So declarations are association lists, and
`Put`/`MergeInto` reproduce `Hash#merge` order. Everywhere else hashes are
maps, and Ruby's `==` on hashes ignores order just as map equality does.

The model follows the code where the library's own test file expects
something else. The tests were evidently written against a different
version of `html.rb`:

- `spec/integrations/html_spec.rb` passes a block with
  `inlineStyleRanges: nil` and `entityRanges: nil`. `build_commands` then
  calls `flat_map` on nil, which raises.
- It uses a style missing from its style map, which `fetch_or_default_style`
  raises on.
- It gives `block_map['atomic']` as an array, which `block_options` cannot
  read.

Entity ranges are checked for crossing at command level only. Commands
that share an offset stay in build order inside their group, so ranges that
do not cross can still replay as start A, start B, stop A and raise
`InvalidEntity` (`Entity.CrossingRaises`) when the two entities' details
differ:

- two ranges that touch without overlapping, listed with the later one
  first (`Commands.AdjacentRangesOutOfOrder`);
- two nested ranges that end at the same offset, listed outer first, which
  is offset order (`Commands.NestedSharedEnd`). Two ranges over the same
  span are a case of this, in either order.

So well-nested ranges with different entities that share an endpoint
raise unless the list order makes their stops close the inner entity
first. The conversion is proved to succeed when every stop closes the
innermost open entity (`Entity.LifoRunSucceeds`), which is narrower than
"no two ranges cross".

A content state without blocks gives nil, not an empty string, because
`[].inject(:+)` is nil (`Html.CallSpec`, `None`).

## Model

| member | source | states |
|---|---|---|
| RubyValues.Fetch | lib/draftjs_exporter/html.rb:49 | `Hash#fetch`: the stored value for a present key, KeyError for an absent one, NoMethodError on nil |
| RubyValues.FetchOr | lib/draftjs_exporter/html.rb:18-19 | `fetch(key, default)`: the stored value (even nil) when the key is present, the default otherwise |
| RubyValues.HasKey | lib/draftjs_exporter/html.rb:50 | `key?` answers membership on a hash and raises on any other receiver |
| RubyValues.ToS | lib/draftjs_exporter/entity_state.rb:58 | `to_s`: "" for nil, the string itself for strings and symbols, decimal digits with a sign for integers; no result for hashes and arrays |
| Content.BlockType | lib/draftjs_exporter/html.rb:28 | `block.fetch(:type, 'unstyled')`: "unstyled" when absent, nil when nil, the type otherwise |
| DefaultItem.FetchOrDefaultItem | lib/draftjs_exporter/helpers/default_item.rb:5-17 | a non-nil entry for the key wins; else a non-nil 'default' entry; else a key mapped to nil gives nil and an absent key raises KeyError(key); a returned value is always an entry of the map |
| DefaultItem.DefaultOnlyFillsGaps | lib/draftjs_exporter/helpers/default_item.rb:8-11 | when the key has a non-nil entry, changing the 'default' entry does not change the result |
| DefaultItem.DefaultMakesTotal | lib/draftjs_exporter/helpers/default_item.rb:10-11 | with a non-nil 'default' entry, every lookup succeeds with a non-nil value |
| Entities.LinkData | lib/draftjs_exporter/entities/link.rb:12 | `data.fetch(:data, {})`: an empty hash when the entity has no `:data` |
| Entities.LinkAttributes | lib/draftjs_exporter/entities/link.rb:12-13 | succeeds exactly when the entity data has a `:url`; `href` is that url; `class` is present iff `configuration[:className]` is truthy and then equals it; no other attribute; a missing url raises KeyError(:url) |
| Entities.DefaultLinkHasNoClass | lib/draftjs_exporter/entities/link.rb:7-9 | with the default configuration `{className: nil}` the only attribute is `href` |
| Entities.LinkCallSpec | lib/draftjs_exporter/entities/link.rb:11-18 | a new `a` element with those attributes and no text is appended as the last child of the parent and returned (not the parent); no other node changes; the tree stays well formed |
| Entities.LinkCall | lib/draftjs_exporter/entities/link.rb:11-18 | the method on a document does what `LinkCallSpec` states and leaves the document unchanged when it raises |
| Entities.DecorateSpec | lib/draftjs_exporter/entity_state.rb:43 | `decorator.call(parent, details)`: the null decorator returns the parent unchanged; a link appends its element; either way only nodes without text are added |
| Entities.Decorate | lib/draftjs_exporter/entity_state.rb:43 | the method on a document does what `DecorateSpec` states |
| Entity.EntityFor | lib/draftjs_exporter/entity_state.rb:57-60 | the entry under `key.to_s` when it is non-nil, else the entry under the symbol `key.to_s.to_sym`, else nil |
| Entity.KeyFormsAgree | lib/draftjs_exporter/entity_state.rb:57-60 | the integer key 0, the string "0" and the symbol :"0" resolve to the same entity |
| Entity.SymbolKeyFound | lib/draftjs_exporter/entity_state.rb:58-59 | an entity stored under the symbol :"0" is found by the integer key 0 |
| Entity.DecoratorFor | lib/draftjs_exporter/entity_state.rb:40 | the decorator is looked up by the entity's `:type` with the 'default' fallback; an entity without `:type` raises KeyError(:type) |
| Entity.StartStep | lib/draftjs_exporter/entity_state.rb:37-44 | pushes exactly one entry whose details are the resolved entity and whose element is the decorator's result for the previous top element; the stack below is unchanged; the document only grows and gains no text |
| Entity.Expected | lib/draftjs_exporter/entity_state.rb:48 | the details the top entry expects; nil for an empty stack |
| Entity.StopStep | lib/draftjs_exporter/entity_state.rb:46-55 | pops exactly the top entry iff the resolved details equal the top's; otherwise raises InvalidEntity(expected, got) without popping |
| Entity.EntityStep | lib/draftjs_exporter/entity_state.rb:21-28 | `apply`: a start is `StartStep`, a stop is `StopStep` with the document untouched and its error raised; every other command leaves stack and document unchanged |
| Entity.CurrentParent | lib/draftjs_exporter/entity_state.rb:30-33 | the element of the top entry; nil for an empty stack |
| Entity.EntityRun | lib/draftjs_exporter/entity_state.rb:21-28 | commands applied in order keep every stack element inside the document |
| Entity.EntityRunSnoc | lib/draftjs_exporter/entity_state.rb:21-28 | one more command: an earlier failure is kept, otherwise the command is applied to the stack and document the run reached |
| Entity.RunKeepsBase | lib/draftjs_exporter/entity_state.rb:37-55 | a run that never stops more entities than it started keeps the stack below intact and changes its height by starts minus stops |
| Entity.StepKeepsBase | lib/draftjs_exporter/entity_state.rb:21-55 | one successful start pushes one entry and one stop pops one, leaving the entries below unchanged |
| Entity.BalancedRunRestores | lib/draftjs_exporter/entity_state.rb:37-55 | a run that succeeds, never goes below its start and has as many stops as starts returns the stack to what it was |
| Entity.StartSucceedsExactly | lib/draftjs_exporter/entity_state.rb:37-44 | on a non-empty stack a start succeeds iff the entity is found, its type has a non-nil decorator, and a link finds its `:url` |
| Entity.LifoPrefix | lib/draftjs_exporter/entity_state.rb:21-28 | dropping the last command keeps a list LIFO-matched and its starts successful |
| Entity.LifoStep | lib/draftjs_exporter/entity_state.rb:21-55 | a successful start, or a stop naming the innermost open entity, does not raise and keeps one entry per open entity above the base |
| Entity.LifoRunSucceeds | lib/draftjs_exporter/entity_state.rb:21-55 | the converse of `CrossingRaises`: if every start succeeds and every stop names the innermost open entity, the run does not raise, keeps its initial stack and holds one entry per open entity, with its details |
| Entity.LifoOpenedIsNet | lib/draftjs_exporter/entity_state.rb:46-55 | in a LIFO-matched list the open entities number starts minus stops and no prefix stops more than it started |
| Entity.BalancedLifoRunRestores | lib/draftjs_exporter/entity_state.rb:21-55 | a LIFO-matched list with equal starts and stops, whose starts succeed, runs without raising and restores the stack |
| Entity.CrossingRaises | lib/draftjs_exporter/entity_state.rb:46-55 | start A, start B, stop A (crossing ranges with different entities) raises InvalidEntity(B's details, A's details) |
| Entity.StopMatchesByDetails | lib/draftjs_exporter/entity_state.rb:50 | a stop pops whenever its key resolves to details equal to the top's, whatever key the start used |
| Entity.EntityState.constructor | lib/draftjs_exporter/entity_state.rb:15-19 | the stack starts as the single entry (root element, nil) |
| Entity.EntityState.Apply | lib/draftjs_exporter/entity_state.rb:21-28 | the method's new stack and document are `EntityStep`'s; on an exception nothing changes |
| Entity.EntityState.StartCommand | lib/draftjs_exporter/entity_state.rb:37-44 | the method's new stack and document are `StartStep`'s |
| Style.RemoveAll | lib/draftjs_exporter/style_state.rb:16 | `Array#delete`: no occurrence of the id remains, every other element keeps its multiplicity, and a list without the id is unchanged |
| Style.RemoveAllAppend | lib/draftjs_exporter/style_state.rb:16 | deleting from a concatenation deletes from both parts |
| Style.StyleStep | lib/draftjs_exporter/style_state.rb:11-18 | a start appends the id at the end; a stop removes every occurrence; other commands change nothing |
| Style.StartThenStop | lib/draftjs_exporter/style_state.rb:11-18 | starting and then stopping a style that was not active restores the list |
| Style.StopRemovesDuplicates | lib/draftjs_exporter/style_state.rb:15-16 | one stop removes a style started twice |
| Style.NilStyleIsBareSpan | lib/draftjs_exporter/style_state.rb:20-27 | `[nil]` is not text (`empty?` is false) but has no attributes (`any?` is false) |
| Style.KeySeq | lib/draftjs_exporter/style_state.rb:40 | the keys of a declaration in insertion order |
| Style.Lookup | lib/draftjs_exporter/style_state.rb:40 | a declaration's value for a key; nothing iff the key is absent |
| Style.Put | lib/draftjs_exporter/style_state.rb:40 | `h[k] = v`: the key then maps to v, other keys are unchanged, and a new key goes last while an existing one keeps its place |
| Style.MergeInto | lib/draftjs_exporter/style_state.rb:40 | `Hash#merge`: the right-hand value wins for every key, and the left-hand key order is kept |
| Style.MergeAll | lib/draftjs_exporter/style_state.rb:38-40 | `inject({}, :merge)`: each key maps to its value in the last declaration that defines it |
| Style.LastDefinedSome | lib/draftjs_exporter/style_state.rb:38-40 | a key is in the merge iff some declaration defines it |
| Style.DeleteKey | lib/draftjs_exporter/style_state.rb:31 | `delete_if { key == :element }`: the key is gone, others keep their values, nothing is added |
| Style.Hyphenize | lib/draftjs_exporter/style_state.rb:45-47 | the result has no ASCII capital and is one character longer per capital in the input |
| Style.HyphenizeRoundTrip | lib/draftjs_exporter/style_state.rb:45-47 | for a key without '-', camelising the hyphenated form gives the key back, so distinct keys give distinct properties |
| Style.HyphenizeAppend | lib/draftjs_exporter/style_state.rb:45-47 | hyphenation works character by character: it distributes over concatenation |
| Style.HyphenizeLowerUnchanged | lib/draftjs_exporter/style_state.rb:45-47 | a key without capitals is left as it is |
| Style.Rule | lib/draftjs_exporter/style_state.rb:41 | one rule is `"hyphenized-key: value;"` |
| Style.RenderCss | lib/draftjs_exporter/style_state.rb:40-42 | rendering succeeds iff every pair renders |
| Style.RenderSingle | lib/draftjs_exporter/style_state.rb:40-42 | a one-pair declaration renders as its single rule |
| Style.LookupAll | lib/draftjs_exporter/style_state.rb:38-40 | each active style is looked up with the default fallback, in order; one failed lookup raises |
| Style.Unwrapped | lib/draftjs_exporter/style_state.rb:40 | merging a nil declaration raises; otherwise the declarations are passed on in order |
| Style.StylesCssMerges | lib/draftjs_exporter/style_state.rb:37-57 | when every active style resolves, by its own entry or the 'default' one, to a declaration, `styles_css` renders their merge, in which later styles override earlier ones |
| Style.SingleStyleCss | lib/draftjs_exporter/style_state.rb:37-43 | a single active style with a one-pair declaration gives exactly its hyphenated rule, such as `font-style: italic;` for `fontStyle` |
| Style.StylesCssUnknownStyle | lib/draftjs_exporter/style_state.rb:49-57 | an active style with no entry and no usable 'default' makes the CSS raise |
| Style.StylesCssNilStyle | lib/draftjs_exporter/style_state.rb:38-40 | an active style that resolves to nil makes the CSS raise, since `merge(nil)` does |
| Style.ElementAttributes | lib/draftjs_exporter/style_state.rb:24-27 | `{}` when no active style is truthy; otherwise `{style: css}` with the CSS of all active styles, raising when that does |
| Style.ElementAttributesFor | lib/draftjs_exporter/style_state.rb:29-57 | `{}` when no active style is truthy; otherwise the lookup's KeyError when the style resolves to nothing, a raise when it resolves to nil, and else the resolved declaration (its own or the 'default' one) without `:element`, rendered as `{style: css}` |
| Style.ElementKeyDropped | lib/draftjs_exporter/style_state.rb:31 | `:element` never reaches the CSS and every other key keeps its value |
| Style.StyleState.constructor | lib/draftjs_exporter/style_state.rb:6-9 | no style is active |
| Style.StyleState.Apply | lib/draftjs_exporter/style_state.rb:11-18 | the method's new list is `StyleStep`'s |
| Wrapper.BlockData | lib/draftjs_exporter/wrapper_state.rb:82 | `block.fetch(:data, {})` |
| Wrapper.Matches | lib/draftjs_exporter/wrapper_state.rb:85-89 | an entry matches iff every `match_data` pair equals the block data's value for that key; without `match_data` it matches |
| Wrapper.EmptyMatchDataMatchesAll | lib/draftjs_exporter/wrapper_state.rb:85-89 | an empty or absent `match_data` matches every block |
| Wrapper.FindEntry | lib/draftjs_exporter/wrapper_state.rb:84-90 | `find`: the first matching entry, with none before it; none when no entry matches; an exception from the first entry that raises |
| Wrapper.FindAtomicBlockOptions | lib/draftjs_exporter/wrapper_state.rb:70-95 | `block_map['atomic']` defaults to `[]`; the first match's `:options`, or nil |
| Wrapper.OptionsFor | lib/draftjs_exporter/wrapper_state.rb:10-20 | a non-atomic type uses `block_map[type]`; an atomic one uses the matched options, or `block_map['unstyled']` without a match |
| Wrapper.MissingTypeIsUnstyled | lib/draftjs_exporter/wrapper_state.rb:11-13 | a block without `:type` gets the 'unstyled' options |
| Wrapper.UnmatchedAtomicIsUnstyled | lib/draftjs_exporter/wrapper_state.rb:15-17 | an atomic block no entry matches gets the 'unstyled' options |
| Wrapper.ElementArgs | lib/draftjs_exporter/wrapper_state.rb:47-51 | element name, `prefix` (default '') and `attrs` (default {}) from the options; nil options raise |
| Wrapper.WrapperSpec | lib/draftjs_exporter/wrapper_state.rb:59 | the wrapper spec is the pair `[wrapper[:element], wrapper.fetch(:attrs, {})]` |
| Wrapper.ChooseParent | lib/draftjs_exporter/wrapper_state.rb:56-63 | no `:wrapper` means reset; a spec equal to the current options means reuse; any other spec means a new wrapper |
| Wrapper.ResetNeverReused | lib/draftjs_exporter/wrapper_state.rb:59-68 | after a reset the options are `{}`, which never equals a spec pair, so the next wrapped block opens a new wrapper |
| Wrapper.ParentFor | lib/draftjs_exporter/wrapper_state.rb:56-79 | reset gives the fragment with options `{}`; reuse keeps the wrapper; a new wrapper is created, appended to the fragment and made current with the spec |
| Wrapper.CreateElementSpec | lib/draftjs_exporter/wrapper_state.rb:46-54 | the block element is created with its prefix as text and its attrs, appended as the last child of the chosen parent, and returned; existing nodes only gain children |
| Wrapper.ParentForGrows | lib/draftjs_exporter/wrapper_state.rb:56-79 | `parent_for` after `create_element` only adds nodes and appends children to existing ones |
| Wrapper.CreateElementFailure | lib/draftjs_exporter/wrapper_state.rb:46-54 | after a raise the wrapper pair and existing nodes are unchanged; when the arguments could be read, the created element remains in the document without a parent |
| Wrapper.ElementForSpec | lib/draftjs_exporter/wrapper_state.rb:10-20 | a raise in the options lookup is raised as it is; otherwise the block's element is the new node, with the name, prefix and attrs of its options, under the current wrapper; existing nodes only gain children |
| Wrapper.NoWrapperGoesToFragment | lib/draftjs_exporter/wrapper_state.rb:56-68 | a block without a wrapper is appended to the fragment and the wrapper is reset |
| Wrapper.SameSpecReusesWrapper | lib/draftjs_exporter/wrapper_state.rb:59-60 | an equal spec appends the block to the existing wrapper and creates no new one |
| Wrapper.OtherSpecOpensWrapper | lib/draftjs_exporter/wrapper_state.rb:74-79 | a different spec creates a wrapper as the last child of the fragment, holding the block, with that spec as the current options |
| Wrapper.ConsecutiveBlocksShareWrapper | lib/draftjs_exporter/wrapper_state.rb:56-63 | two consecutive blocks with the same wrapper spec end up in the same wrapper element |
| Wrapper.WrapperState.constructor | lib/draftjs_exporter/wrapper_state.rb:3-8 | a new document with a fragment, and the wrapper reset to (fragment, {}) |
| Wrapper.WrapperState.SetWrapper | lib/draftjs_exporter/wrapper_state.rb:34-36 | the current wrapper and options become the given ones |
| Wrapper.WrapperState.ResetWrapper | lib/draftjs_exporter/wrapper_state.rb:65-68 | the wrapper becomes the fragment with options {} and the fragment is returned |
| Wrapper.WrapperState.CreateWrapper | lib/draftjs_exporter/wrapper_state.rb:74-79 | a new element appended to the fragment, then made the current wrapper with the spec |
| Wrapper.WrapperState.ParentForOptions | lib/draftjs_exporter/wrapper_state.rb:56-63 | the method's parent and new state are `ParentFor`'s for `ChooseParent`'s choice |
| Wrapper.WrapperState.CreateElement | lib/draftjs_exporter/wrapper_state.rb:46-54 | the method's result and new state are `CreateElementSpec`'s; after a raise the state is `CreateElementFailure`'s |
| Wrapper.WrapperState.ElementFor | lib/draftjs_exporter/wrapper_state.rb:10-20 | the method's result and new state are `ElementForSpec`'s; after a raise the state is unchanged when the options lookup raised, and `CreateElementFailure`'s otherwise |
| NodeTree.ElementName | lib/draftjs_exporter/html.rb:29 | an element name is a string or a symbol; anything else raises |
| NodeTree.Attach | lib/draftjs_exporter/html.rb:67 | `add_child`: the child becomes the parent's last child and records its parent; no other node changes; well-formedness is kept |
| NodeTree.TextOfSplit | lib/draftjs_exporter/html.rb:67 | the text of a range of nodes is the text of its two halves, in order |
| NodeTree.TextOfGrows | lib/draftjs_exporter/html.rb:67 | appending nodes and children does not change the text of existing nodes |
| NodeTree.Document.CreateFragment | lib/draftjs_exporter/html.rb:27 | a detached fragment is added and its index returned |
| NodeTree.Document.CreateElement | lib/draftjs_exporter/html.rb:65 | a detached element with the given name, text and attributes is added and its index returned |
| NodeTree.Document.CreateTextNode | lib/draftjs_exporter/html.rb:63 | a detached text node is added and its index returned |
| NodeTree.Document.AddChild | lib/draftjs_exporter/html.rb:67 | the document becomes `Attach`'s |
| Commands.RangeStartStop | lib/draftjs_exporter/html.rb:112-116 | stop is offset + length, so stop ≥ start exactly when length ≥ 0 |
| Commands.InlineStyleCommands | lib/draftjs_exporter/html.rb:90-99 | one start/stop pair per style range, in range order, at its start and stop |
| Commands.EntityCommands | lib/draftjs_exporter/html.rb:101-110 | one start/stop pair per entity range, in range order, at its start and stop |
| Commands.BuildCommands | lib/draftjs_exporter/html.rb:81-88 | `start_text@0`, `stop_text@len`, then the style pairs, then the entity pairs: 2 + 2·styles + 2·entities commands |
| Commands.NestedSharedEnd | lib/draftjs_exporter/html.rb:72-110 | nested entity ranges ending at the same offset, listed outer first, give at that offset the outer range's stop before the inner one's |
| Commands.AdjacentRangesOutOfOrder | lib/draftjs_exporter/html.rb:72-110 | two touching entity ranges listed later-first give, at the shared offset, the later range's start before the earlier range's stop |
| Commands.GroupByIndexSpec | lib/draftjs_exporter/html.rb:72 | `group_by(&:index)`: distinct offsets; each group is exactly the commands at its offset, in order |
| Commands.SortByIndexSpec | lib/draftjs_exporter/html.rb:72 | `sort`: strictly ascending offsets, a permutation of the groups |
| Commands.CommandGroupsSpec | lib/draftjs_exporter/html.rb:72 | groups strictly ascend, each holds exactly its offset's commands in build order, every offset has a group, and together they are a permutation of the commands |
| Commands.RubySlice | lib/draftjs_exporter/html.rb:77 | `String#slice(a..b)`: nil before the start or past the end; the inclusive substring; to the end for b = -1; "" for an empty range |
| Commands.Segments | lib/draftjs_exporter/html.rb:73-78 | one segment per group, carrying that group's commands |
| Commands.BuildCommandGroups | lib/draftjs_exporter/html.rb:70-79 | succeeds iff text and both range lists are present; then the segments of the sorted groups; a missing text raises KeyError(:text) |
| Commands.CommandsWithin | lib/draftjs_exporter/html.rb:81-88 | ranges inside the text give commands inside [0, len] |
| Commands.SegmentInterior | lib/draftjs_exporter/html.rb:73-77 | a non-last group's segment is the text from its offset up to the next group's offset |
| Commands.JoinedPrefix | lib/draftjs_exporter/html.rb:73-77 | segments that each hold the text between consecutive offsets, from offset 0, join to the text up to the last offset |
| Commands.LastSegmentEmpty | lib/draftjs_exporter/html.rb:76-77 | the last group, at len, has the empty segment |
| Commands.SegmentsTileText | lib/draftjs_exporter/html.rb:70-88 | with all ranges inside the text, groups run from 0 to len, every segment is a string, and the segments concatenate to exactly the block text |
| Html.WrapperParts | lib/draftjs_exporter/html.rb:53-54 | `wrapper[0]` and `wrapper[1]` for arrays (nil past the end), hashes, strings and symbols (one character) and integers (bits); nil and booleans raise |
| Html.BlockOptions | lib/draftjs_exporter/html.rb:48-58 | an unknown type raises KeyError(type); without `:wrapper` it is `[element]` and needs `:element`; with one it is `[wrapper[0], attrs]` where attrs holds `:class` iff the config (`wrapper[1]`, or `{}` when that is falsy) has `:className` |
| Html.CreateArgs | lib/draftjs_exporter/html.rb:29 | `create_element(*options)`: the name and an optional attribute hash |
| Html.AddNodeSpec | lib/draftjs_exporter/html.rb:60-68 | a nil parent raises; with no active style a text node, otherwise a `span` with the style attributes, holding the segment and appended as the parent's last child; existing nodes keep their text |
| Html.ApplyCommands | lib/draftjs_exporter/html.rb:39-42 | every command goes to the entity state and then the style state; the document only grows |
| Html.ApplyCommandsStep | lib/draftjs_exporter/html.rb:39-42 | a successful entity step and the style step extend a successful command prefix by one command |
| Html.ApplyCommandsStepFails | lib/draftjs_exporter/html.rb:39-42 | an entity step that raises makes the whole command list raise its error |
| Html.ApplyCommandsAddNoText | lib/draftjs_exporter/html.rb:39-42 | replaying commands adds only entity elements, which carry no text |
| Html.ReplaySegment | lib/draftjs_exporter/html.rb:38-45 | all of a group's commands are applied before its segment is appended under the resulting current parent |
| Html.ReplaySegmentText | lib/draftjs_exporter/html.rb:38-45 | one group adds exactly its segment's text |
| Html.OneMoreText | lib/draftjs_exporter/html.rb:60-68 | appending one node with a given content after nodes without text makes the new nodes' text exactly that content |
| Html.ReplayAllText | lib/draftjs_exporter/html.rb:38-45 | the nodes a block's replay creates carry the segments' texts, in order |
| Html.ApplyCommandsFails | lib/draftjs_exporter/html.rb:39-42 | the first command that raises decides the outcome |
| Html.ReplayAllFails | lib/draftjs_exporter/html.rb:38-45 | the first group that raises decides the outcome |
| Html.BlockContentsSpec | lib/draftjs_exporter/html.rb:35-46 | the replay only adds nodes and appends children; a block without text raises KeyError(:text) |
| Html.BlockContentsKeepsText | lib/draftjs_exporter/html.rb:35-46 | with every range inside the text, the nodes `block_contents` creates hold the block's text exactly, in order, whatever the styles and entities |
| Html.ContentStateBlockShape | lib/draftjs_exporter/html.rb:25-33 | the output's block element has the name and attributes `block_options` gives, is the fragment's last child, and with ranges inside the text holds exactly the block's text |
| Html.ContentStateBlockSpec | lib/draftjs_exporter/html.rb:25-33 | an unknown block type raises KeyError(type) |
| Html.EntityMapValue | lib/draftjs_exporter/html.rb:19 | `fetch(:entityMap, {})`: an absent map is `{}` |
| Html.MapRaisingSpec | lib/draftjs_exporter/html.rb:18-20 | `map` with exceptions succeeds iff every call does, with one result per element in order |
| Html.CallSpec | lib/draftjs_exporter/html.rb:17-21 | absent `:blocks` gives nil; nil blocks raise; otherwise nil for no blocks and the blocks' renderings for some |
| Html.MissingEntityMapIsEmpty | lib/draftjs_exporter/html.rb:19 | a content state without `:entityMap` renders as one with `{}` |
| Html.CallRendersEveryBlock | lib/draftjs_exporter/html.rb:17-21 | `call` succeeds iff every block renders, and then gives one output per block, its own block's, in block order |
| Html.AddNode | lib/draftjs_exporter/html.rb:60-68 | the method's document is `AddNodeSpec`'s; it is unchanged when the method raises |
| Html.BlockContents | lib/draftjs_exporter/html.rb:35-46 | the loops over groups and commands, driving fresh `StyleState` and `EntityState` objects, leave the document `BlockContentsSpec` gives and raise its error |
| Html.ApplyGroup | lib/draftjs_exporter/html.rb:39-42 | the loop over one group's commands leaves the entity stack, active styles and document `ApplyCommands` gives, and raises its error at the first failing command |
| Html.RenderGroup | lib/draftjs_exporter/html.rb:38-45 | one pass of the group loop: the commands, then `add_node` under the current parent, leave the state `ReplaySegment` gives and raise its error |
| Html.ReplayGroups | lib/draftjs_exporter/html.rb:38-45 | the loop over the groups leaves the document `ReplayAll` gives and raises its error at the first failing group |
| Html.ContentStateBlock | lib/draftjs_exporter/html.rb:25-33 | the method returns `ContentStateBlockSpec`'s result |
| Html.Call | lib/draftjs_exporter/html.rb:17-21 | the method returns `CallSpec`'s result |

## Left out

- Nokogiri is not part of this model. The document is an abstract node tree. Serialisation (`to_s`, `to_html`, the `encoding:` option), HTML escaping and the merging of adjacent text nodes are not modelled. A rendered block is its tree, not a string.
- Html.CallSpec: returns the rendered block trees in order instead of the concatenation of their HTML strings, because serialisation is not modelled.
- Html.AddNodeSpec: a nil text segment (an offset past the end of the text) raises a generic error. What Nokogiri does with nil text is not visible.
- Html.CreateArgs: only a name and an optional attribute hash are modelled. Nokogiri's other argument forms are not.
- Html.WrapperParts: the value of `wrapper[0]` for types beyond nil, booleans, integers, strings, symbols, arrays and hashes is not modelled.
- `Entities::Null` is not part of this model. It is taken to return its parent element.
- `Command` is not part of this model. It is taken to be a record of name, index and data.
- Ranges are typed records (offset, length, style or key). A range hash missing `:offset`, `:length`, `:style` or `:key` raises KeyError in the code; the model does not represent such ranges.
- Style declarations are association lists of keys and values. A style map entry that is not a hash cannot be written down, so `merge` on one is not modelled. `to_s` is modelled for nil, integers, strings and symbols only; any other key or value makes a rule fail.
- Style.RenderCss: states when rendering succeeds and the text for a single pair (`RenderSingle`). The concatenation for longer declarations is not stated as a lemma.
- Wrapper.ElementArgs: a nil or non-string `:prefix` and a non-hash `:attrs` raise a generic error. Nokogiri's `create_element` would take them as content or attributes in its own way, which is not visible.
- Wrapper.ChooseParent: wrapper attrs that are not a hash raise a generic error. `create_wrapper` passes them to Nokogiri's `create_element`, whose handling of other values is not visible.
- Wrapper.Matches: a `match_data` that is not a hash raises a generic error instead of calling that object's own `all?`.
- Decorators other than `Entities::Link` and `Entities::Null` are not modelled: `entity_decorators` can map a type to any object with `call`. `Html.ApplyCommandsAddNoText`, `Html.BlockContentsKeepsText` and the text clause of `Html.ContentStateBlockShape` rely on the two modelled decorators adding no text nodes; a decorator that adds text would break them.
- Entity.EntityFor: the text of `InvalidEntity`'s message (`inspect` of both details) is not modelled. The error carries the two values instead.
- Floats and other numeric types are not values of the model.
- RubyValues.ToS: `to_s` of a hash or an array (which is its `inspect`) is not modelled, so an entity key or CSS pair of that kind raises a generic error instead.
- `lib/draftjs_exporter/logger.rb` is a no-op logging sink and is not modelled.
- Depth-indexed nesting of wrappers does not occur in `wrapper_state.rb` (`block[:depth]` is never read) and is not modelled.
