/**
 * `DraftjsExporter::StyleState`: the list of inline styles active at the
 * current position of a block, and the CSS text built from it.  A style's
 * declaration is a Ruby hash such as `{fontStyle: 'italic'}`; its order is
 * visible in the rendered CSS, so it is kept as an association list.
 */
module Style {
  import opened RubyValues
  import opened Content
  import opened DefaultItem

  /** A declaration hash in insertion order. */
  type Declaration = seq<(Value, Value)>

  /** `style_map`: style id to declaration; an entry may hold nil. */
  type StyleMap = map<Value, Option<Declaration>>

  // ---------------------------------------------------------------------
  // The list of active styles
  // ---------------------------------------------------------------------

  /** `Array#delete`: every element equal to `x` is removed, the others keep their order. */
  function RemoveAll(s: seq<Value>, x: Value): (r: seq<Value>)
    ensures x !in r
    ensures multiset(r) == multiset(s)[x := 0]
    ensures x !in s ==> r == s
    decreases |s|
  {
    if s == [] then []
    else
      var pre := s[..|s| - 1];
      assert s == pre + [s[|s| - 1]];
      if s[|s| - 1] == x then RemoveAll(pre, x) else RemoveAll(pre, x) + [s[|s| - 1]]
  }

  lemma {:induction false} RemoveAllAppend(a: seq<Value>, b: seq<Value>, x: Value)
    ensures RemoveAll(a + b, x) == RemoveAll(a, x) + RemoveAll(b, x)
    decreases |b|
  {
    if b == [] {
      assert a + b == a;
    } else {
      var pre := b[..|b| - 1];
      assert (a + b)[..|a + b| - 1] == a + pre;
      assert (a + b)[|a + b| - 1] == b[|b| - 1];
      RemoveAllAppend(a, pre, x);
    }
  }

  /** `StyleState#apply`: a start appends the style id, a stop deletes it everywhere. */
  function StyleStep(styles: seq<Value>, cmd: Command): (r: seq<Value>)
    ensures cmd.name == StartInlineStyle ==>
      |r| == |styles| + 1 && r[..|styles|] == styles && r[|styles|] == cmd.data
    ensures cmd.name == StopInlineStyle ==>
      cmd.data !in r && multiset(r) == multiset(styles)[cmd.data := 0]
    ensures cmd.name != StartInlineStyle && cmd.name != StopInlineStyle ==> r == styles
  {
    match cmd.name
    case StartInlineStyle => styles + [cmd.data]
    case StopInlineStyle => RemoveAll(styles, cmd.data)
    case _ => styles
  }

  /** Starting a style that is not active and stopping it again restores the list. */
  lemma StartThenStop(styles: seq<Value>, id: Value, i: int, j: int)
    requires id !in styles
    ensures StyleStep(StyleStep(styles, Command(StartInlineStyle, i, id)), Command(StopInlineStyle, j, id)) == styles
  {
    RemoveAllAppend(styles, [id], id);
    assert RemoveAll([id], id) == [];
  }

  /** A style started twice is gone after one stop: `delete` removes both copies. */
  lemma StopRemovesDuplicates(styles: seq<Value>, id: Value, k: int)
    requires id !in styles
    ensures StyleStep(styles + [id, id], Command(StopInlineStyle, k, id)) == styles
  {
    RemoveAllAppend(styles, [id, id], id);
    var r := RemoveAll([id, id], id);
    assert multiset(r) == multiset{};
  }

  /** `styles.any?`: some active style id is truthy. */
  predicate AnyTruthy(styles: seq<Value>) {
    exists i :: 0 <= i < |styles| && Truthy(styles[i])
  }

  /** `text?`: no style is active, so the segment is a plain text node. */
  predicate IsText(styles: seq<Value>) {
    styles == []
  }

  /**
   * `text?` and `any?` differ for a list of falsy ids: a style range whose
   * id is nil makes the segment a span, with no attributes.
   */
  lemma NilStyleIsBareSpan(styleMap: StyleMap)
    ensures !IsText([Nil])
    ensures ElementAttributes(styleMap, [Nil]) == Ok(map[])
  {
  }

  // ---------------------------------------------------------------------
  // Declaration hashes: lookup, store, merge
  // ---------------------------------------------------------------------

  /** The keys of a declaration, in order. */
  function KeySeq(d: Declaration): (r: seq<Value>)
    ensures |r| == |d| && forall i :: 0 <= i < |d| ==> r[i] == d[i].0
    decreases |d|
  {
    if d == [] then [] else KeySeq(d[..|d| - 1]) + [d[|d| - 1].0]
  }

  /** `hash[key]`: the value of the last pair with that key, as a hash literal keeps it. */
  function Lookup(d: Declaration, k: Value): (r: Option<Value>)
    ensures r.None? <==> k !in KeySeq(d)
    decreases |d|
  {
    if d == [] then None
    else if d[|d| - 1].0 == k then Some(d[|d| - 1].1)
    else Lookup(d[..|d| - 1], k)
  }

  /**
   * `hash[key] = value`: a key already present keeps its place and takes
   * the new value; a new key goes at the end.
   */
  function Put(d: Declaration, k: Value, v: Value): (r: Declaration)
    ensures Lookup(r, k) == Some(v)
    ensures forall k' :: k' != k ==> Lookup(r, k') == Lookup(d, k')
    ensures KeySeq(r) == if k in KeySeq(d) then KeySeq(d) else KeySeq(d) + [k]
    decreases |d|
  {
    if k !in KeySeq(d) then
      var r := d + [(k, v)];
      assert r[..|r| - 1] == d;
      r
    else
      var pre := d[..|d| - 1];
      var last := d[|d| - 1];
      assert KeySeq(d) == KeySeq(pre) + [last.0];
      if last.0 == k then
        var r := pre + [(k, v)];
        assert r[..|r| - 1] == pre;
        r
      else
        var rest := Put(pre, k, v);
        var r := rest + [last];
        assert r[..|r| - 1] == rest;
        assert k in KeySeq(pre);
        assert KeySeq(r) == KeySeq(rest) + [last.0];
        assert Lookup(r, k) == Lookup(rest, k);
        r
  }

  /** `acc.merge(d)`: the pairs of `d` stored into `acc` one after another. */
  function MergeInto(acc: Declaration, d: Declaration): (r: Declaration)
    ensures forall k :: Lookup(r, k) == if Lookup(d, k).Some? then Lookup(d, k) else Lookup(acc, k)
    ensures KeySeq(acc) <= KeySeq(r)
    decreases |d|
  {
    if d == [] then acc
    else
      var pre := d[..|d| - 1];
      var r := Put(MergeInto(acc, pre), d[|d| - 1].0, d[|d| - 1].1);
      assert KeySeq(acc) <= KeySeq(r) by {
        var m := KeySeq(MergeInto(acc, pre));
        assert m <= KeySeq(r) by {
          if d[|d| - 1].0 !in m {
            assert KeySeq(r) == m + [d[|d| - 1].0];
          }
        }
      }
      r
  }

  /** The value the last declaration that defines `k` gives it. */
  function LastDefined(ds: seq<Declaration>, k: Value): Option<Value>
    decreases |ds|
  {
    if ds == [] then None
    else if Lookup(ds[|ds| - 1], k).Some? then Lookup(ds[|ds| - 1], k)
    else LastDefined(ds[..|ds| - 1], k)
  }

  /** `ds.inject({}, :merge)`. */
  function MergeAll(ds: seq<Declaration>): (r: Declaration)
    ensures forall k :: Lookup(r, k) == LastDefined(ds, k)
    decreases |ds|
  {
    if ds == [] then [] else MergeInto(MergeAll(ds[..|ds| - 1]), ds[|ds| - 1])
  }

  /** The merged declarations hold exactly the keys some declaration defines. */
  lemma {:induction false} LastDefinedSome(ds: seq<Declaration>, k: Value)
    ensures LastDefined(ds, k).Some? <==> exists i :: 0 <= i < |ds| && k in KeySeq(ds[i])
    decreases |ds|
  {
    if ds != [] {
      var pre := ds[..|ds| - 1];
      LastDefinedSome(pre, k);
      if exists i :: 0 <= i < |pre| && k in KeySeq(pre[i]) {
        var i :| 0 <= i < |pre| && k in KeySeq(pre[i]);
        assert ds[i] == pre[i];
      }
      if exists i :: 0 <= i < |ds| && k in KeySeq(ds[i]) {
        var i :| 0 <= i < |ds| && k in KeySeq(ds[i]);
        if i < |pre| { assert pre[i] == ds[i]; }
      }
    }
  }

  /** `delete_if { |key, _| key == k }`: the pairs with another key, in order. */
  function DeleteKey(d: Declaration, k: Value): (r: Declaration)
    ensures k !in KeySeq(r)
    ensures forall k' :: k' != k ==> Lookup(r, k') == Lookup(d, k')
    ensures forall p :: p in r ==> p in d
    decreases |d|
  {
    if d == [] then []
    else
      var pre := DeleteKey(d[..|d| - 1], k);
      if d[|d| - 1].0 == k then pre
      else
        var r := pre + [d[|d| - 1]];
        assert r[..|r| - 1] == pre;
        assert KeySeq(r) == KeySeq(pre) + [d[|d| - 1].0];
        r
  }

  // ---------------------------------------------------------------------
  // Rendering
  // ---------------------------------------------------------------------

  predicate IsUpper(c: char) { 'A' <= c <= 'Z' }

  function Lower(c: char): (r: char)
    requires IsUpper(c)
    ensures 'a' <= r <= 'z'
  {
    (c as int - 'A' as int + 'a' as int) as char
  }

  function Upper(c: char): (r: char)
    requires 'a' <= c <= 'z'
    ensures IsUpper(r)
  {
    (c as int - 'a' as int + 'A' as int) as char
  }

  function UpperCount(s: string): nat
    decreases |s|
  {
    if s == [] then 0 else (if IsUpper(s[0]) then 1 else 0) + UpperCount(s[1..])
  }

  /** `hyphenize`: each capital letter becomes `-` and its lower-case letter. */
  function Hyphenize(s: string): (r: string)
    ensures forall i :: 0 <= i < |r| ==> !IsUpper(r[i])
    ensures |r| == |s| + UpperCount(s)
    decreases |s|
  {
    if s == [] then []
    else if IsUpper(s[0]) then ['-', Lower(s[0])] + Hyphenize(s[1..])
    else [s[0]] + Hyphenize(s[1..])
  }

  /** The reverse reading: `-x` becomes `X`. */
  function Camelize(s: string): string
    decreases |s|
  {
    if s == [] then []
    else if |s| >= 2 && s[0] == '-' && 'a' <= s[1] <= 'z' then [Upper(s[1])] + Camelize(s[2..])
    else [s[0]] + Camelize(s[1..])
  }

  /** A camel-case property name without dashes is recovered from its hyphenated form. */
  lemma {:induction false} HyphenizeRoundTrip(s: string)
    requires '-' !in s
    ensures Camelize(Hyphenize(s)) == s
    decreases |s|
  {
    if s != [] {
      assert '-' !in s[1..];
      HyphenizeRoundTrip(s[1..]);
      var h := Hyphenize(s);
      if IsUpper(s[0]) {
        assert h[2..] == Hyphenize(s[1..]);
      } else {
        assert h[1..] == Hyphenize(s[1..]);
      }
    }
  }

  lemma {:induction false} HyphenizeAppend(a: string, b: string)
    ensures Hyphenize(a + b) == Hyphenize(a) + Hyphenize(b)
    decreases |a|
  {
    if a == [] {
      assert a + b == b;
    } else {
      assert (a + b)[1..] == a[1..] + b;
      HyphenizeAppend(a[1..], b);
    }
  }

  /** A name without capitals is left alone. */
  lemma {:induction false} HyphenizeLowerUnchanged(s: string)
    requires forall i :: 0 <= i < |s| ==> !IsUpper(s[i])
    ensures Hyphenize(s) == s
    decreases |s|
  {
    if s != [] {
      HyphenizeLowerUnchanged(s[1..]);
    }
  }

  /** `"#{hyphenize(key)}: #{value};"`; hashes and arrays print via `inspect`, not modelled. */
  function Rule(key: Value, value: Value): (r: Result<string>)
    ensures r.Ok? <==> ToS(key).Some? && ToS(value).Some?
    ensures r.Ok? ==> r.value == Hyphenize(ToS(key).value) + ": " + ToS(value).value + ";"
  {
    match (ToS(key), ToS(value))
    case (Some(k), Some(v)) => Ok(Hyphenize(k) + ": " + v + ";")
    case _ => Err(Unsupported("inspect of a hash or array in a declaration"))
  }

  /** `d.map { ... }.join`. */
  function RenderCss(d: Declaration): (r: Result<string>)
    ensures r.Ok? <==> forall i :: 0 <= i < |d| ==> Rule(d[i].0, d[i].1).Ok?
    decreases |d|
  {
    if d == [] then Ok("")
    else
      var pre :- RenderCss(d[..|d| - 1]);
      var last :- Rule(d[|d| - 1].0, d[|d| - 1].1);
      Ok(pre + last)
  }

  /** One declaration `{k: v}` renders as a single rule. */
  lemma RenderSingle(k: string, v: string)
    ensures RenderCss([(Sym(k), Str(v))]) == Ok(Hyphenize(k) + ": " + v + ";")
  {
    var d := [(Sym(k), Str(v))];
    assert d[..0] == [];
    assert Rule(Sym(k), Str(v)) == Ok(Hyphenize(k) + ": " + v + ";");
    assert "" + (Hyphenize(k) + ": " + v + ";") == Hyphenize(k) + ": " + v + ";";
  }

  // ---------------------------------------------------------------------
  // CSS of the active styles
  // ---------------------------------------------------------------------

  /** `fetch_or_default_style` for every active style, in order; the first failure is raised. */
  function LookupAll(styleMap: StyleMap, styles: seq<Value>): (r: Result<seq<Option<Declaration>>>)
    ensures r.Ok? <==> forall i :: 0 <= i < |styles| ==> FetchOrDefaultItem(styleMap, styles[i]).Ok?
    ensures r.Ok? ==> |r.value| == |styles|
    ensures r.Ok? ==> forall i :: 0 <= i < |styles| ==> r.value[i] == FetchOrDefaultItem(styleMap, styles[i]).value
    decreases |styles|
  {
    if styles == [] then Ok([])
    else
      var pre :- LookupAll(styleMap, styles[..|styles| - 1]);
      var d :- FetchOrDefaultItem(styleMap, styles[|styles| - 1]);
      Ok(pre + [d])
  }

  /** All looked-up declarations are hashes (`{}.merge(nil)` raises otherwise). */
  function Unwrapped(ds: seq<Option<Declaration>>): (r: Result<seq<Declaration>>)
    ensures r.Ok? <==> forall i :: 0 <= i < |ds| ==> ds[i].Some?
    ensures r.Ok? ==> |r.value| == |ds| && forall i :: 0 <= i < |ds| ==> ds[i] == Some(r.value[i])
    decreases |ds|
  {
    if ds == [] then Ok([])
    else
      var pre :- Unwrapped(ds[..|ds| - 1]);
      match ds[|ds| - 1]
      case None => Err(WrongReceiver("merge"))
      case Some(d) => Ok(pre + [d])
  }

  /** `styles_css`: look every style up, merge in order, render. */
  function StylesCss(styleMap: StyleMap, styles: seq<Value>): (r: Result<string>)
  {
    var found :- LookupAll(styleMap, styles);
    var ds :- Unwrapped(found);
    RenderCss(MergeAll(ds))
  }

  /**
   * When every active style resolves to a declaration (its own, or the
   * `'default'` one), the CSS is the rendering of one declaration that
   * gives each property the value of the last active style that sets it.
   */
  lemma StylesCssMerges(styleMap: StyleMap, styles: seq<Value>, ds: seq<Declaration>)
    requires |ds| == |styles|
    requires forall i :: 0 <= i < |styles| ==> FetchOrDefaultItem(styleMap, styles[i]) == Ok(Some(ds[i]))
    ensures StylesCss(styleMap, styles) == RenderCss(MergeAll(ds))
    ensures forall k :: Lookup(MergeAll(ds), k) == LastDefined(ds, k)
  {
    var found := LookupAll(styleMap, styles);
    assert found.Ok? && forall i :: 0 <= i < |styles| ==> found.value[i] == Some(ds[i]);
    var u := Unwrapped(found.value);
    assert u.Ok?;
    assert u.value == ds by {
      forall i | 0 <= i < |ds| ensures u.value[i] == ds[i] {
        assert found.value[i] == Some(u.value[i]);
      }
    }
  }

  /**
   * One active style whose declaration sets one property renders as one
   * rule (`{fontStyle: 'italic'}` as `font-style: italic;`).
   */
  lemma SingleStyleCss(id: Value, k: string, v: string)
    ensures StylesCss(map[id := Some([(Sym(k), Str(v))])], [id]) == Ok(Hyphenize(k) + ": " + v + ";")
  {
    var d := [(Sym(k), Str(v))];
    var m := map[id := Some(d)];
    StylesCssMerges(m, [id], [d]);
    var none: seq<Declaration> := [];
    assert [d][..0] == none;
    assert MergeAll([d]) == MergeInto([], d);
    assert d[..0] == [];
    assert MergeInto([], d) == d;
    RenderSingle(k, v);
  }

  /** A style id the map does not know, with no default, makes the CSS fail with KeyError. */
  lemma StylesCssUnknownStyle(styleMap: StyleMap, styles: seq<Value>, i: nat)
    requires i < |styles| && styles[i] !in styleMap && !HasItem(styleMap, DefaultKey)
    ensures StylesCss(styleMap, styles).Err?
  {
    assert FetchOrDefaultItem(styleMap, styles[i]).Err?;
  }

  /**
   * A style id that resolves to nil (mapped to nil, with no non-nil
   * `'default'`) makes the CSS fail too: `{}.merge(nil)` raises.
   */
  lemma StylesCssNilStyle(styleMap: StyleMap, styles: seq<Value>, i: nat)
    requires i < |styles| && FetchOrDefaultItem(styleMap, styles[i]) == Ok(None)
    ensures StylesCss(styleMap, styles).Err?
  {
    var found := LookupAll(styleMap, styles);
    if found.Ok? {
      assert found.value[i] == None;
    }
  }

  /** `element_attributes`: no attributes unless a style is active, else the CSS as `style`. */
  function ElementAttributes(styleMap: StyleMap, styles: seq<Value>): (r: Result<map<Value, Value>>)
    ensures !AnyTruthy(styles) ==> r == Ok(map[])
    ensures AnyTruthy(styles) ==> (r.Ok? <==> StylesCss(styleMap, styles).Ok?)
    ensures AnyTruthy(styles) && r.Ok? ==>
      r.value == map[Sym("style") := Str(StylesCss(styleMap, styles).value)]
  {
    if !AnyTruthy(styles) then Ok(map[])
    else
      var css :- StylesCss(styleMap, styles);
      Ok(map[Sym("style") := Str(css)])
  }

  /**
   * `element_attributes_for(style)`: the one style's declaration, without
   * its `element` key, as `style`; nothing unless a style is active.
   */
  function ElementAttributesFor(styleMap: StyleMap, styles: seq<Value>, style: Value): (r: Result<map<Value, Value>>)
    ensures !AnyTruthy(styles) ==> r == Ok(map[])
    // a style that resolves to nothing raises the lookup's KeyError ...
    ensures AnyTruthy(styles) && FetchOrDefaultItem(styleMap, style).Err? ==>
      r == Err(FetchOrDefaultItem(styleMap, style).error)
    // ... and one that resolves to nil cannot be merged
    ensures AnyTruthy(styles) && FetchOrDefaultItem(styleMap, style) == Ok(None) ==> r.Err?
    // otherwise the resolved declaration (its own or the 'default' one) is rendered
    ensures AnyTruthy(styles) && FetchOrDefaultItem(styleMap, style).Ok? && FetchOrDefaultItem(styleMap, style).value.Some? ==>
      var d := DeleteKey(MergeInto([], FetchOrDefaultItem(styleMap, style).value.value), Sym("element"));
      (r.Ok? <==> RenderCss(d).Ok?) &&
      (r.Ok? ==> r.value == map[Sym("style") := Str(RenderCss(d).value)])
  {
    if !AnyTruthy(styles) then Ok(map[])
    else
      var found :- FetchOrDefaultItem(styleMap, style);
      match found
      case None => Err(WrongReceiver("merge"))
      case Some(d) =>
        var css :- RenderCss(DeleteKey(MergeInto([], d), Sym("element")));
        Ok(map[Sym("style") := Str(css)])
  }

  /** The `element` key never reaches the CSS of `element_attributes_for`. */
  lemma ElementKeyDropped(d: Declaration)
    ensures Lookup(DeleteKey(MergeInto([], d), Sym("element")), Sym("element")).None?
    ensures forall k :: k != Sym("element") ==> Lookup(DeleteKey(MergeInto([], d), Sym("element")), k) == Lookup(d, k)
  {
  }

  // ---------------------------------------------------------------------
  // The state object
  // ---------------------------------------------------------------------

  class StyleState {
    var styles: seq<Value>
    const styleMap: StyleMap

    /** `StyleState.new(style_map)`: no style is active. */
    constructor (styleMap: StyleMap)
      ensures styles == [] && this.styleMap == styleMap
    {
      styles := [];
      this.styleMap := styleMap;
    }

    /** `apply(command)`. */
    method Apply(cmd: Command)
      modifies this
      ensures styles == StyleStep(old(styles), cmd)
    {
      match cmd.name {
        case StartInlineStyle => styles := styles + [cmd.data];
        case StopInlineStyle => styles := RemoveAll(styles, cmd.data);
        case _ =>
      }
    }
  }
}
