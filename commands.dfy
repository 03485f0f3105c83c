/**
 * The command compiler of `DraftjsExporter::HTML`: a block's text, style
 * ranges and entity ranges become positional start/stop commands, which
 * are grouped by offset (`group_by(&:index).sort`), and the text is cut
 * into one segment per group with Ruby's `String#slice`.
 */
module Commands {
  import opened RubyValues
  import opened Content

  // ---------------------------------------------------------------------
  // Commands from ranges
  // ---------------------------------------------------------------------

  /** `range_start_stop`: a range covers `[offset, offset + length)`. */
  function RangeStartStop(offset: int, length: int): (r: (int, int))
    ensures r.0 == offset && r.1 - r.0 == length
    ensures r.0 <= r.1 <==> length >= 0
  {
    (offset, offset + length)
  }

  function StyleCommandPair(range: StyleRange): (r: seq<Command>) {
    var (start, stop) := RangeStartStop(range.offset, range.length);
    [Command(StartInlineStyle, start, range.style), Command(StopInlineStyle, stop, range.style)]
  }

  function EntityCommandPair(range: EntityRange): (r: seq<Command>) {
    var (start, stop) := RangeStartStop(range.offset, range.length);
    [Command(StartEntity, start, range.key), Command(StopEntity, stop, range.key)]
  }

  /** `build_inline_style_commands`: one start/stop pair per range, in range order. */
  function InlineStyleCommands(ranges: seq<StyleRange>): (r: seq<Command>)
    ensures |r| == 2 * |ranges|
    ensures forall i :: 0 <= i < |ranges| ==>
      r[2 * i] == Command(StartInlineStyle, ranges[i].offset, ranges[i].style) &&
      r[2 * i + 1] == Command(StopInlineStyle, ranges[i].offset + ranges[i].length, ranges[i].style)
    decreases |ranges|
  {
    if ranges == [] then []
    else InlineStyleCommands(ranges[..|ranges| - 1]) + StyleCommandPair(ranges[|ranges| - 1])
  }

  /** `build_entity_commands`: one start/stop pair per range, in range order. */
  function EntityCommands(ranges: seq<EntityRange>): (r: seq<Command>)
    ensures |r| == 2 * |ranges|
    ensures forall i :: 0 <= i < |ranges| ==>
      r[2 * i] == Command(StartEntity, ranges[i].offset, ranges[i].key) &&
      r[2 * i + 1] == Command(StopEntity, ranges[i].offset + ranges[i].length, ranges[i].key)
    decreases |ranges|
  {
    if ranges == [] then []
    else EntityCommands(ranges[..|ranges| - 1]) + EntityCommandPair(ranges[|ranges| - 1])
  }

  /**
   * `build_commands`: the text markers, then the style pairs, then the
   * entity pairs.
   */
  function BuildCommands(text: string, styles: seq<StyleRange>, entities: seq<EntityRange>): (r: seq<Command>)
    ensures |r| == 2 + 2 * |styles| + 2 * |entities|
    ensures r[0] == Command(StartText, 0, Nil) && r[1] == Command(StopText, |text|, Nil)
    ensures forall i :: 0 <= i < |styles| ==>
      r[2 + 2 * i] == Command(StartInlineStyle, styles[i].offset, styles[i].style) &&
      r[3 + 2 * i] == Command(StopInlineStyle, styles[i].offset + styles[i].length, styles[i].style)
    ensures forall j :: 0 <= j < |entities| ==>
      r[2 + 2 * |styles| + 2 * j] == Command(StartEntity, entities[j].offset, entities[j].key) &&
      r[3 + 2 * |styles| + 2 * j] == Command(StopEntity, entities[j].offset + entities[j].length, entities[j].key)
  {
    var s := InlineStyleCommands(styles);
    var e := EntityCommands(entities);
    var r := [Command(StartText, 0, Nil), Command(StopText, |text|, Nil)] + s + e;
    assert forall i :: 0 <= i < |styles| ==> r[2 + 2 * i] == s[2 * i] && r[3 + 2 * i] == s[2 * i + 1];
    assert forall j :: 0 <= j < |entities| ==>
      r[2 + 2 * |styles| + 2 * j] == e[2 * j] && r[3 + 2 * |styles| + 2 * j] == e[2 * j + 1];
    r
  }

  /**
   * Two entity ranges that touch but do not overlap, listed with the later
   * one first: the group at the shared offset holds the later range's
   * start before the earlier range's stop, because a group keeps build
   * order.  Replayed after the earlier range's start, that is the crossing
   * pattern start A, start B, stop A.
   */
  lemma AdjacentRangesOutOfOrder(text: string, a: EntityRange, b: EntityRange)
    requires 0 <= a.offset && 0 < a.length && 0 < b.length
    requires b.offset == a.offset + a.length && b.offset != |text|
    ensures a.offset < b.offset
    ensures AtIndex(BuildCommands(text, [], [b, a]), b.offset) ==
      [Command(StartEntity, b.offset, b.key), Command(StopEntity, b.offset, a.key)]
  {
    var cmds := BuildCommands(text, [], [b, a]);
    var k := b.offset;
    assert cmds[2] == Command(StartEntity, b.offset, b.key) && cmds[3].index != k;
    assert cmds[4].index != k && cmds[5] == Command(StopEntity, k, a.key);
    assert AtIndex(cmds[..2], k) == [] by {
      assert cmds[0].index == 0 != k && cmds[1].index == |text| != k;
      assert cmds[..2][..1] == cmds[..1] && cmds[..1][..0] == [];
      assert AtIndex(cmds[..1], k) == [];
    }
    assert cmds[..3][..2] == cmds[..2] && cmds[..4][..3] == cmds[..3];
    assert cmds[..5][..4] == cmds[..4] && cmds[..6][..5] == cmds[..5] && cmds[..6] == cmds;
    assert AtIndex(cmds[..4], k) == [cmds[2]];
    assert AtIndex(cmds[..5], k) == [cmds[2]];
  }

  /**
   * Nested entity ranges that end at the same offset, listed outer first
   * (offset order): the group at the shared end holds the outer range's
   * stop before the inner one's.  Replayed with the inner entity on top,
   * that stop is the crossing pattern's stop A.  Two ranges over the same
   * span are the case `a.offset == b.offset`.
   */
  lemma NestedSharedEnd(text: string, a: EntityRange, b: EntityRange)
    requires 0 <= a.offset <= b.offset && 0 < b.length
    requires a.offset + a.length == b.offset + b.length != |text|
    ensures AtIndex(BuildCommands(text, [], [a, b]), b.offset + b.length) ==
      [Command(StopEntity, b.offset + b.length, a.key), Command(StopEntity, b.offset + b.length, b.key)]
  {
    var cmds := BuildCommands(text, [], [a, b]);
    var k := b.offset + b.length;
    assert cmds[2].index != k && cmds[3] == Command(StopEntity, k, a.key);
    assert cmds[4].index != k && cmds[5] == Command(StopEntity, k, b.key);
    assert AtIndex(cmds[..2], k) == [] by {
      assert cmds[0].index == 0 != k && cmds[1].index == |text| != k;
      assert cmds[..2][..1] == cmds[..1] && cmds[..1][..0] == [];
      assert AtIndex(cmds[..1], k) == [];
    }
    assert cmds[..3][..2] == cmds[..2] && cmds[..4][..3] == cmds[..3];
    assert cmds[..5][..4] == cmds[..4] && cmds[..6][..5] == cmds[..5] && cmds[..6] == cmds;
    assert AtIndex(cmds[..3], k) == [];
    assert AtIndex(cmds[..5], k) == [cmds[3]];
  }

  // ---------------------------------------------------------------------
  // group_by(&:index).sort
  // ---------------------------------------------------------------------

  /** An offset with the commands found at it, in the order they were built. */
  type Group = (int, seq<Command>)

  predicate DistinctKeys(gs: seq<Group>) {
    forall i, j :: 0 <= i < j < |gs| ==> gs[i].0 != gs[j].0
  }

  predicate StrictlyAscending(gs: seq<Group>) {
    forall i, j :: 0 <= i < j < |gs| ==> gs[i].0 < gs[j].0
  }

  /** The commands at one offset, in their original order. */
  function AtIndex(cmds: seq<Command>, k: int): (r: seq<Command>)
    ensures forall c :: c in r ==> c in cmds && c.index == k
    decreases |cmds|
  {
    if cmds == [] then []
    else AtIndex(cmds[..|cmds| - 1], k) + (if cmds[|cmds| - 1].index == k then [cmds[|cmds| - 1]] else [])
  }

  /** The position of the group for offset `k`, if there is one. */
  function KeyPos(gs: seq<Group>, k: int): (r: Option<nat>)
    ensures r.Some? ==> r.value < |gs| && gs[r.value].0 == k
    ensures r.None? ==> forall i :: 0 <= i < |gs| ==> gs[i].0 != k
    decreases |gs|
  {
    if gs == [] then None
    else if gs[0].0 == k then Some(0)
    else match KeyPos(gs[1..], k)
      case None => None
      case Some(i) => Some(i + 1)
  }

  /** One step of `group_by`: append to the command's group, or open a new group at the end. */
  function AddToGroups(gs: seq<Group>, c: Command): (r: seq<Group>) {
    match KeyPos(gs, c.index)
    case Some(i) => gs[i := (c.index, gs[i].1 + [c])]
    case None => gs + [(c.index, [c])]
  }

  /** `group_by(&:index)`: groups in order of first appearance. */
  function GroupByIndex(cmds: seq<Command>): (r: seq<Group>)
    decreases |cmds|
  {
    if cmds == [] then []
    else AddToGroups(GroupByIndex(cmds[..|cmds| - 1]), cmds[|cmds| - 1])
  }

  function InsertSorted(g: Group, gs: seq<Group>): (r: seq<Group>)
    decreases |gs|
  {
    if gs == [] then [g]
    else if g.0 <= gs[0].0 then [g] + gs
    else [gs[0]] + InsertSorted(g, gs[1..])
  }

  /** `sort` on `[index, commands]` pairs; indices are distinct, so only they decide. */
  function SortByIndex(gs: seq<Group>): (r: seq<Group>)
    decreases |gs|
  {
    if gs == [] then [] else InsertSorted(gs[0], SortByIndex(gs[1..]))
  }

  function CommandGroups(cmds: seq<Command>): seq<Group> {
    SortByIndex(GroupByIndex(cmds))
  }

  /** All commands of all groups, group after group. */
  function Flatten(gs: seq<Group>): seq<Command>
    decreases |gs|
  {
    if gs == [] then [] else gs[0].1 + Flatten(gs[1..])
  }

  /** The offsets of a command list. */
  function Offsets(cmds: seq<Command>): (r: set<int>)
    ensures forall c :: c in cmds ==> c.index in r
    decreases |cmds|
  {
    if cmds == [] then {} else Offsets(cmds[..|cmds| - 1]) + {cmds[|cmds| - 1].index}
  }

  /** The offsets that have a group. */
  function Keys(gs: seq<Group>): set<int> {
    set i | 0 <= i < |gs| :: gs[i].0
  }

  /** Each group holds exactly the commands at its offset, in their original order, and is not empty. */
  predicate GroupsAreFilters(gs: seq<Group>, cmds: seq<Command>) {
    forall i :: 0 <= i < |gs| ==> gs[i].1 == AtIndex(cmds, gs[i].0) && gs[i].1 != []
  }

  // ----- proofs about group_by -----

  lemma {:induction false} FlattenAppend(gs: seq<Group>, g: Group)
    ensures Flatten(gs + [g]) == Flatten(gs) + g.1
    decreases |gs|
  {
    if gs != [] {
      assert (gs + [g])[1..] == gs[1..] + [g];
      FlattenAppend(gs[1..], g);
    }
  }

  lemma {:induction false} FlattenUpdate(gs: seq<Group>, i: nat, c: Command)
    requires i < |gs|
    ensures multiset(Flatten(gs[i := (gs[i].0, gs[i].1 + [c])])) == multiset(Flatten(gs)) + multiset{c}
    decreases |gs|
  {
    var u := gs[i := (gs[i].0, gs[i].1 + [c])];
    if i > 0 {
      assert u[1..] == gs[1..][i - 1 := (gs[1..][i - 1].0, gs[1..][i - 1].1 + [c])];
      FlattenUpdate(gs[1..], i - 1, c);
    } else {
      assert u[1..] == gs[1..];
    }
  }

  lemma AtIndexSnoc(pre: seq<Command>, c: Command, k: int)
    ensures AtIndex(pre + [c], k) == AtIndex(pre, k) + (if c.index == k then [c] else [])
  {
    assert (pre + [c])[..|pre|] == pre;
  }

  lemma {:induction false} AtIndexEmpty(cmds: seq<Command>, k: int)
    requires forall c :: c in cmds ==> c.index != k
    ensures AtIndex(cmds, k) == []
    decreases |cmds|
  {
    if cmds != [] {
      AtIndexEmpty(cmds[..|cmds| - 1], k);
    }
  }

  /** One `group_by` step: the command joins the group of its offset, or opens a new one. */
  lemma AddToGroupsSpec(gs: seq<Group>, c: Command)
    requires DistinctKeys(gs)
    ensures var r := AddToGroups(gs, c);
      DistinctKeys(r) && Keys(r) == Keys(gs) + {c.index} &&
      multiset(Flatten(r)) == multiset(Flatten(gs)) + multiset{c}
  {
    var r := AddToGroups(gs, c);
    match KeyPos(gs, c.index)
    case Some(p) =>
      FlattenUpdate(gs, p, c);
      assert forall i :: 0 <= i < |r| ==> r[i].0 == gs[i].0;
    case None =>
      FlattenAppend(gs, (c.index, [c]));
      assert forall i :: 0 <= i < |gs| ==> r[i] == gs[i];
      assert Keys(r) == Keys(gs) + {c.index} by {
        assert r[|gs|].0 == c.index;
      }
  }

  /** The filter property survives one `group_by` step. */
  lemma AddToGroupsFilters(pre: seq<Command>, c: Command, gp: seq<Group>)
    requires DistinctKeys(gp) && GroupsAreFilters(gp, pre)
    requires Keys(gp) == Offsets(pre)
    ensures GroupsAreFilters(AddToGroups(gp, c), pre + [c])
  {
    var g := AddToGroups(gp, c);
    forall i | 0 <= i < |g| ensures g[i].1 == AtIndex(pre + [c], g[i].0) && g[i].1 != [] {
      AtIndexSnoc(pre, c, g[i].0);
      match KeyPos(gp, c.index)
      case Some(p) =>
        if i != p {
          assert g[i] == gp[i];
          assert gp[i].0 != gp[p].0;
        }
      case None =>
        if i < |gp| {
          assert g[i] == gp[i];
        } else {
          assert c.index !in Keys(gp);
          AtIndexEmpty(pre, c.index);
        }
    }
  }

  /**
   * `group_by(&:index)`: distinct offsets, one per command offset; each
   * group is exactly the commands at its offset in their original order;
   * and the groups hold the commands, nothing lost or duplicated.
   */
  lemma {:induction false} GroupByIndexSpec(cmds: seq<Command>)
    ensures var g := GroupByIndex(cmds);
      DistinctKeys(g) && GroupsAreFilters(g, cmds) &&
      Keys(g) == Offsets(cmds) &&
      multiset(Flatten(g)) == multiset(cmds)
    decreases |cmds|
  {
    if cmds != [] {
      var pre, c := cmds[..|cmds| - 1], cmds[|cmds| - 1];
      assert cmds == pre + [c];
      var gp := GroupByIndex(pre);
      GroupByIndexSpec(pre);
      assert GroupByIndex(cmds) == AddToGroups(gp, c);
      AddToGroupsSpec(gp, c);
      AddToGroupsFilters(pre, c, gp);
    }
  }

  // ----- proofs about the sort -----

  lemma KeysCons(g: Group, gs: seq<Group>)
    ensures Keys([g] + gs) == {g.0} + Keys(gs)
  {
    var r := [g] + gs;
    forall k | k in Keys(r) ensures k in {g.0} + Keys(gs) {
      var i :| 0 <= i < |r| && r[i].0 == k;
      if i > 0 { assert gs[i - 1].0 == k; }
    }
    forall k | k in Keys(gs) ensures k in Keys(r) {
      var i :| 0 <= i < |gs| && gs[i].0 == k;
      assert r[i + 1].0 == k;
    }
    assert r[0].0 == g.0;
  }

  lemma {:induction false} InsertSortedPerm(g: Group, gs: seq<Group>)
    ensures multiset(InsertSorted(g, gs)) == multiset(gs) + multiset{g}
    decreases |gs|
  {
    if gs != [] && g.0 > gs[0].0 {
      InsertSortedPerm(g, gs[1..]);
      assert gs == [gs[0]] + gs[1..];
    }
  }

  lemma {:induction false} InsertSortedKeys(g: Group, gs: seq<Group>)
    ensures Keys(InsertSorted(g, gs)) == Keys(gs) + {g.0}
    decreases |gs|
  {
    if gs == [] {
      KeysCons(g, []);
    } else if g.0 <= gs[0].0 {
      KeysCons(g, gs);
    } else {
      InsertSortedKeys(g, gs[1..]);
      KeysCons(gs[0], InsertSorted(g, gs[1..]));
      KeysCons(gs[0], gs[1..]);
      assert gs == [gs[0]] + gs[1..];
    }
  }

  lemma {:induction false} InsertSortedFlatten(g: Group, gs: seq<Group>)
    ensures multiset(Flatten(InsertSorted(g, gs))) == multiset(Flatten(gs)) + multiset(g.1)
    decreases |gs|
  {
    if gs == [] {
      assert Flatten([g]) == g.1 + Flatten([]);
    } else if g.0 <= gs[0].0 {
      assert ([g] + gs)[1..] == gs;
    } else {
      InsertSortedFlatten(g, gs[1..]);
      assert ([gs[0]] + InsertSorted(g, gs[1..]))[1..] == InsertSorted(g, gs[1..]);
    }
  }

  lemma {:induction false} InsertSortedAscending(g: Group, gs: seq<Group>)
    requires StrictlyAscending(gs) && g.0 !in Keys(gs)
    ensures StrictlyAscending(InsertSorted(g, gs))
    decreases |gs|
  {
    var r := InsertSorted(g, gs);
    if gs == [] {
    } else if g.0 <= gs[0].0 {
      assert g.0 != gs[0].0;
      forall i, j | 0 <= i < j < |r| ensures r[i].0 < r[j].0 {
        assert r[j] == gs[j - 1];
        if i > 0 { assert r[i] == gs[i - 1]; }
        else if j > 1 { assert gs[0].0 < gs[j - 1].0; }
      }
    } else {
      var rest := InsertSorted(g, gs[1..]);
      assert Keys(gs[1..]) <= Keys(gs) by {
        forall k | k in Keys(gs[1..]) ensures k in Keys(gs) {
          var i :| 0 <= i < |gs[1..]| && gs[1..][i].0 == k;
          assert gs[i + 1].0 == k;
        }
      }
      InsertSortedAscending(g, gs[1..]);
      InsertSortedKeys(g, gs[1..]);
      forall i, j | 0 <= i < j < |r| ensures r[i].0 < r[j].0 {
        assert r[j] == rest[j - 1];
        if i > 0 {
          assert r[i] == rest[i - 1];
        } else {
          assert rest[j - 1].0 in Keys(rest);
          if rest[j - 1].0 != g.0 {
            var m :| 0 <= m < |gs[1..]| && gs[1..][m].0 == rest[j - 1].0;
            assert gs[0].0 < gs[m + 1].0;
          }
        }
      }
    }
  }

  lemma DistinctKeysTail(gs: seq<Group>)
    requires gs != [] && DistinctKeys(gs)
    ensures DistinctKeys(gs[1..]) && gs[0].0 !in Keys(gs[1..])
  {
    forall i, j | 0 <= i < j < |gs[1..]| ensures gs[1..][i].0 != gs[1..][j].0 {
      assert gs[1..][i] == gs[i + 1] && gs[1..][j] == gs[j + 1];
    }
    forall i | 0 <= i < |gs[1..]| ensures gs[1..][i].0 != gs[0].0 {
      assert gs[1..][i] == gs[i + 1];
    }
  }

  lemma {:induction false} SortByIndexSpec(gs: seq<Group>)
    requires DistinctKeys(gs)
    ensures StrictlyAscending(SortByIndex(gs))
    ensures multiset(SortByIndex(gs)) == multiset(gs)
    ensures Keys(SortByIndex(gs)) == Keys(gs)
    ensures multiset(Flatten(SortByIndex(gs))) == multiset(Flatten(gs))
    decreases |gs|
  {
    if gs != [] {
      var g, tail := gs[0], gs[1..];
      var rest := SortByIndex(tail);
      DistinctKeysTail(gs);
      SortByIndexSpec(tail);
      assert SortByIndex(gs) == InsertSorted(g, rest);
      assert gs == [g] + tail;
      assert StrictlyAscending(SortByIndex(gs)) by {
        InsertSortedAscending(g, rest);
      }
      assert multiset(SortByIndex(gs)) == multiset(gs) by {
        InsertSortedPerm(g, rest);
        assert multiset(gs) == multiset(tail) + multiset{g};
      }
      assert Keys(SortByIndex(gs)) == Keys(gs) by {
        InsertSortedKeys(g, rest);
        KeysCons(g, tail);
      }
      assert multiset(Flatten(SortByIndex(gs))) == multiset(Flatten(gs)) by {
        InsertSortedFlatten(g, rest);
        assert Flatten(gs) == g.1 + Flatten(tail);
      }
    }
  }

  /**
   * `build_commands(block).group_by(&:index).sort`: offsets strictly
   * ascending; each group holds exactly the commands at its offset, in
   * their original order (text markers, then styles, then entities); every
   * command's offset has a group and no other offset has one; and the
   * groups together hold the command list, nothing lost or duplicated.
   */
  lemma CommandGroupsSpec(cmds: seq<Command>)
    ensures var g := CommandGroups(cmds);
      StrictlyAscending(g) && GroupsAreFilters(g, cmds) &&
      Keys(g) == Offsets(cmds) &&
      multiset(Flatten(g)) == multiset(cmds)
  {
    var gb := GroupByIndex(cmds);
    GroupByIndexSpec(cmds);
    SortByIndexSpec(gb);
    var g := CommandGroups(cmds);
    forall i | 0 <= i < |g| ensures g[i].1 == AtIndex(cmds, g[i].0) && g[i].1 != [] {
      assert g[i] in multiset(gb);
      var j :| 0 <= j < |gb| && gb[j] == g[i];
    }
  }

  // ---------------------------------------------------------------------
  // Segments
  // ---------------------------------------------------------------------

  /**
   * Ruby's `String#slice(from..to)` with an inclusive range: negative
   * bounds count from the end, a start beyond the end gives nil, a start
   * at the end or an end before the start gives "".
   */
  function RubySlice(s: string, from: int, to: int): (r: Option<string>)
    ensures r.None? <==> (if from < 0 then from + |s| < 0 else from > |s|)
    ensures 0 <= from <= to < |s| ==> r == Some(s[from..to + 1])
    ensures 0 <= from <= |s| && to == -1 ==> r == Some(s[from..])
    ensures 0 <= from <= |s| && 0 <= to < from ==> r == Some("")
  {
    var start := if from < 0 then from + |s| else from;
    if start < 0 || start > |s| then None
    else
      var stop0 := if to < 0 then to + |s| else to;
      var stop := if stop0 >= |s| then |s| - 1 else stop0;
      if stop < start then
        assert start == |s| ==> s[start..] == [];
        Some("")
      else
        assert stop + 1 == |s| ==> s[start..stop + 1] == s[start..];
        Some(s[start..stop + 1])
  }

  /** The text between one command offset and the next, and the commands at that offset. */
  datatype Segment = Segment(text: Option<string>, commands: seq<Command>)

  /** `(next_group && next_group.first || 0) - 1`: one before the next offset, or -1 for the last group. */
  function SliceStop(gs: seq<Group>, i: nat): int {
    (if i + 1 < |gs| then gs[i + 1].0 else 0) - 1
  }

  /** The `grouped.map.with_index` of `build_command_groups`. */
  function Segments(text: string, gs: seq<Group>): (r: seq<Segment>)
    ensures |r| == |gs|
    ensures forall i :: 0 <= i < |gs| ==> r[i].commands == gs[i].1
  {
    seq(|gs|, i requires 0 <= i < |gs| => Segment(RubySlice(text, gs[i].0, SliceStop(gs, i)), gs[i].1))
  }

  /**
   * `build_command_groups`: fetch the text and the two range lists (a
   * missing key raises KeyError, a nil value NoMethodError on its first
   * use), build, group and slice.
   */
  function BuildCommandGroups(block: Block): (r: Result<seq<Segment>>)
    ensures block.text.Missing? ==> r == Err(KeyError(Sym("text")))
    ensures r.Ok? <==> block.text.Present? && block.inlineStyleRanges.Present? && block.entityRanges.Present?
    ensures r.Ok? ==> r.value == Segments(block.text.value,
      CommandGroups(BuildCommands(block.text.value, block.inlineStyleRanges.value, block.entityRanges.value)))
  {
    match block.text
    case Missing => Err(KeyError(Sym("text")))
    case NilField => Err(NoMethodOnNil("size"))
    case Present(text) =>
      match block.inlineStyleRanges
      case Missing => Err(KeyError(Sym("inlineStyleRanges")))
      case NilField => Err(NoMethodOnNil("flat_map"))
      case Present(styles) =>
        match block.entityRanges
        case Missing => Err(KeyError(Sym("entityRanges")))
        case NilField => Err(NoMethodOnNil("flat_map"))
        case Present(entities) =>
          Ok(Segments(text, CommandGroups(BuildCommands(text, styles, entities))))
  }

  /** The text of a segment, "" for a nil slice. */
  function SegmentText(s: Segment): string {
    if s.text.Some? then s.text.value else ""
  }

  function Joined(segs: seq<Segment>): string
    decreases |segs|
  {
    if segs == [] then "" else Joined(segs[..|segs| - 1]) + SegmentText(segs[|segs| - 1])
  }

  /** Every range starts and stops inside the text. */
  predicate RangesWithin(text: string, styles: seq<StyleRange>, entities: seq<EntityRange>) {
    (forall r :: r in styles ==> 0 <= r.offset <= |text| && 0 <= r.offset + r.length <= |text|) &&
    (forall r :: r in entities ==> 0 <= r.offset <= |text| && 0 <= r.offset + r.length <= |text|)
  }

  lemma {:induction false} CommandsWithin(text: string, styles: seq<StyleRange>, entities: seq<EntityRange>)
    requires RangesWithin(text, styles, entities)
    ensures forall c :: c in BuildCommands(text, styles, entities) ==> 0 <= c.index <= |text|
  {
    var cmds := BuildCommands(text, styles, entities);
    forall c | c in cmds ensures 0 <= c.index <= |text| {
      var k :| 0 <= k < |cmds| && cmds[k] == c;
      if k >= 2 + 2 * |styles| {
        var j := (k - 2 - 2 * |styles|) / 2;
        assert entities[j] in entities;
        assert k == 2 + 2 * |styles| + 2 * j || k == 3 + 2 * |styles| + 2 * j;
      } else if k >= 2 {
        var i := (k - 2) / 2;
        assert styles[i] in styles;
        assert k == 2 + 2 * i || k == 3 + 2 * i;
      }
    }
  }

  lemma SegmentInterior(text: string, gs: seq<Group>, i: nat)
    requires i + 1 < |gs| && 0 <= gs[i].0 < gs[i + 1].0 <= |text|
    ensures Segments(text, gs)[i].text == Some(text[gs[i].0..gs[i + 1].0])
  {
    assert SliceStop(gs, i) == gs[i + 1].0 - 1;
  }

  /** `Joined` of a prefix one longer adds that segment's text. */
  lemma JoinedSnoc(segs: seq<Segment>, m: nat)
    requires 0 < m <= |segs|
    ensures Joined(segs[..m]) == Joined(segs[..m - 1]) + SegmentText(segs[m - 1])
  {
    assert segs[..m][..m - 1] == segs[..m - 1];
  }

  /** Segment `i` holds the text from offset `i` up to offset `i + 1`, both inside the text. */
  predicate Tile(text: string, gs: seq<Group>, segs: seq<Segment>, i: nat) {
    i + 1 < |gs| && i < |segs| && 0 <= gs[i].0 < gs[i + 1].0 <= |text| &&
    SegmentText(segs[i]) == text[gs[i].0..gs[i + 1].0]
  }

  /** Segments that tile the text from offset 0 join to the text up to the last offset reached. */
  lemma {:induction false} JoinedPrefix(text: string, gs: seq<Group>, segs: seq<Segment>, k: nat)
    requires 0 < k <= |gs| && |segs| == |gs| && gs[0].0 == 0 && 0 <= gs[k - 1].0 <= |text|
    requires forall i :: 0 <= i < k - 1 ==> Tile(text, gs, segs, i)
    ensures Joined(segs[..k - 1]) == text[..gs[k - 1].0]
    decreases k
  {
    if k > 1 {
      var i := k - 2;
      assert Tile(text, gs, segs, i);
      var lo, hi := gs[i].0, gs[i + 1].0;
      JoinedPrefix(text, gs, segs, k - 1);
      JoinedSnoc(segs, k - 1);
      assert text[..hi] == text[..lo] + text[lo..hi];
    }
  }

  lemma AscendingEnds(gs: seq<Group>, i: nat)
    requires StrictlyAscending(gs) && i < |gs|
    ensures gs[0].0 <= gs[i].0 <= gs[|gs| - 1].0
  {
  }

  /** When every offset lies in `[0, n]` and both ends occur, the groups run from 0 to `n`. */
  lemma GroupsSpan(cmds: seq<Command>, n: int)
    requires forall c :: c in cmds ==> 0 <= c.index <= n
    requires 0 in Offsets(cmds) && n in Offsets(cmds)
    ensures var gs := CommandGroups(cmds);
      StrictlyAscending(gs) && |gs| >= 1 && gs[0].0 == 0 && gs[|gs| - 1].0 == n &&
      forall i :: 0 <= i < |gs| ==> 0 <= gs[i].0 <= n
  {
    var gs := CommandGroups(cmds);
    CommandGroupsSpec(cmds);
    var z :| 0 <= z < |gs| && gs[z].0 == 0;
    var e :| 0 <= e < |gs| && gs[e].0 == n;
    forall i | 0 <= i < |gs| ensures 0 <= gs[i].0 <= n {
      var c := gs[i].1[0];
      assert c in AtIndex(cmds, gs[i].0);
    }
    AscendingEnds(gs, z);
    AscendingEnds(gs, e);
  }

  lemma LastSegmentEmpty(text: string, gs: seq<Group>)
    requires |gs| >= 1 && gs[|gs| - 1].0 == |text|
    ensures Segments(text, gs)[|gs| - 1].text == Some("")
  {
    assert SliceStop(gs, |gs| - 1) == -1;
    assert text[|text|..] == "";
  }

  lemma JoinedLast(segs: seq<Segment>, text: string)
    requires |segs| >= 1 && Joined(segs[..|segs| - 1]) == text && segs[|segs| - 1].text == Some("")
    ensures Joined(segs) == text
  {
    assert segs[..|segs|][..|segs| - 1] == segs[..|segs| - 1];
    assert segs[..|segs|] == segs;
  }

  lemma SegmentsTile(text: string, gs: seq<Group>)
    requires StrictlyAscending(gs) && |gs| >= 1 && gs[0].0 == 0 && gs[|gs| - 1].0 == |text|
    requires forall i :: 0 <= i < |gs| ==> 0 <= gs[i].0 <= |text|
    ensures var segs := Segments(text, gs);
      (forall i :: 0 <= i < |segs| ==> segs[i].text.Some?) &&
      (forall i :: 0 <= i < |segs| - 1 ==> segs[i].text == Some(text[gs[i].0..gs[i + 1].0])) &&
      segs[|segs| - 1].text == Some("") &&
      Joined(segs) == text
  {
    var segs := Segments(text, gs);
    var n := |gs|;
    forall i | 0 <= i < n - 1
      ensures segs[i].text == Some(text[gs[i].0..gs[i + 1].0]) && Tile(text, gs, segs, i)
    {
      assert gs[i].0 < gs[i + 1].0;
      SegmentInterior(text, gs, i);
    }
    LastSegmentEmpty(text, gs);
    JoinedPrefix(text, gs, segs, n);
    JoinedLast(segs, text);
  }

  /**
   * When every range lies inside the text, the first group is at 0, the
   * last group is at the end of the text with an empty segment, each
   * other segment is the text from its offset up to the next one, and the
   * segments together are exactly the block text.
   */
  lemma SegmentsTileText(text: string, styles: seq<StyleRange>, entities: seq<EntityRange>)
    requires RangesWithin(text, styles, entities)
    ensures var gs := CommandGroups(BuildCommands(text, styles, entities));
      var segs := Segments(text, gs);
      StrictlyAscending(gs) && (forall i :: 0 <= i < |gs| ==> 0 <= gs[i].0 <= |text|) &&
      |gs| >= 1 && gs[0].0 == 0 && gs[|gs| - 1].0 == |text| &&
      (forall i :: 0 <= i < |segs| ==> segs[i].text.Some?) &&
      (forall i :: 0 <= i < |segs| - 1 ==> segs[i].text == Some(text[gs[i].0..gs[i + 1].0])) &&
      segs[|segs| - 1].text == Some("") &&
      Joined(segs) == text
  {
    var cmds := BuildCommands(text, styles, entities);
    assert forall c :: c in cmds ==> 0 <= c.index <= |text| by {
      CommandsWithin(text, styles, entities);
    }
    assert 0 in Offsets(cmds) && |text| in Offsets(cmds) by {
      assert cmds[0] in cmds && cmds[1] in cmds;
    }
    GroupsSpan(cmds, |text|);
    SegmentsTile(text, CommandGroups(cmds));
  }
}
