/**
 * The automatic-style table (`OdfStyle`, `scan_style`, `odf_get_styles`) and
 * the per-node style lookup (`odf_get_node_style`).
 */
module Styles {
  import opened Wrappers
  import opened Tree

  const FontWeightKey := "text-properties/font-weight"
  const FontNameKey := "text-properties/font-name"
  const FontStyleKey := "text-properties/font-style"

  /** One automatic style: its name, the three lifted font fields and the flattened attributes. */
  datatype OdfStyle = OdfStyle(name: string, fontName: string, fontWeight: string, fontStyle: string,
                               dict: map<string, string>)

  /** Styles by name; every rendering operation receives it explicitly. */
  type StyleTable = map<string, OdfStyle>

  /** A style definition whose children all carry attributes, as `scan_style` expects. */
  predicate ScannableStyle(s: Node) {
    s.Element? && forall c :: c in s.children ==> c.Element?
  }

  predicate AllScannable(autos: seq<Node>) {
    forall i :: 0 <= i < |autos| ==> ScannableStyle(autos[i])
  }

  // ---------------------------------------------------------------- scan_style

  /** The writes for one property child: each attribute keyed `prefix + local name`. */
  function Prefixed(prefix: string, attrs: seq<(string, string)>): (w: seq<(string, string)>)
    ensures |w| == |attrs|
    ensures forall i :: 0 <= i < |attrs| ==> w[i] == (prefix + attrs[i].0, attrs[i].1)
  {
    seq(|attrs|, i requires 0 <= i < |attrs| => (prefix + attrs[i].0, attrs[i].1))
  }

  /** The writes for the property children, child by child. */
  function ChildWrites(cs: seq<Node>): seq<(string, string)>
    requires forall c :: c in cs ==> c.Element?
  {
    if |cs| == 0 then []
    else ChildWrites(cs[..|cs| - 1]) + Prefixed(cs[|cs| - 1].local + "/", cs[|cs| - 1].attrs)
  }

  /** Every dictionary write `scan_style` performs, in the order it performs them. */
  function StyleWrites(s: Node): seq<(string, string)>
    requires ScannableStyle(s)
  {
    s.attrs + ChildWrites(s.children)
  }

  /** The dictionary `m` after the writes `w`, in order; a later write of a key replaces an earlier one. */
  function Assign(m: map<string, string>, w: seq<(string, string)>): map<string, string> {
    if |w| == 0 then m else Assign(m, w[..|w| - 1])[w[|w| - 1].0 := w[|w| - 1].1]
  }

  /** The flattened attribute dictionary of one style definition. */
  function StyleDict(s: Node): map<string, string>
    requires ScannableStyle(s)
  {
    Assign(map[], StyleWrites(s))
  }

  lemma AssignSnoc(m: map<string, string>, w: seq<(string, string)>, p: (string, string))
    ensures Assign(m, w + [p]) == Assign(m, w)[p.0 := p.1]
  {
    assert (w + [p])[..|w|] == w;
  }

  /** The keys of a dictionary are those it started with and those written. */
  lemma {:induction false} AssignKeys(m: map<string, string>, w: seq<(string, string)>)
    ensures forall k :: k in Assign(m, w) <==> (k in m || exists i :: 0 <= i < |w| && w[i].0 == k)
  {
    if |w| > 0 {
      var w' := w[..|w| - 1];
      AssignKeys(m, w');
      forall k | k in Assign(m, w)
        ensures k in m || exists i :: 0 <= i < |w| && w[i].0 == k
      {
        if k != w[|w| - 1].0 && k !in m {
          var i :| 0 <= i < |w'| && w'[i].0 == k;
          assert w[i].0 == k;
        }
      }
    }
  }

  /** Each key holds the value of its last write. */
  lemma {:induction false} AssignLastWriteWins(m: map<string, string>, w: seq<(string, string)>)
    ensures forall i :: 0 <= i < |w| && (forall j :: i < j < |w| ==> w[j].0 != w[i].0) ==>
      w[i].0 in Assign(m, w) && Assign(m, w)[w[i].0] == w[i].1
  {
    if |w| > 0 {
      var w' := w[..|w| - 1];
      AssignLastWriteWins(m, w');
      forall i | 0 <= i < |w| && (forall j :: i < j < |w| ==> w[j].0 != w[i].0)
        ensures w[i].0 in Assign(m, w) && Assign(m, w)[w[i].0] == w[i].1
      {
        if i < |w| - 1 {
          assert w'[i] == w[i];
          assert forall j :: i < j < |w'| ==> w'[j].0 != w'[i].0 by {
            forall j | i < j < |w'| ensures w'[j].0 != w'[i].0 {
              assert w'[j] == w[j];
            }
          }
        }
      }
    }
  }

  /** Every write of the property children is a child attribute keyed `child/attr`, and conversely. */
  lemma {:induction false} ChildWritesMembers(cs: seq<Node>)
    requires forall c :: c in cs ==> c.Element?
    ensures forall p :: p in ChildWrites(cs) <==>
      exists j, i :: 0 <= j < |cs| && 0 <= i < |cs[j].attrs| && p == (cs[j].local + "/" + cs[j].attrs[i].0, cs[j].attrs[i].1)
  {
    if |cs| > 0 {
      var cs' := cs[..|cs| - 1];
      var last := cs[|cs| - 1];
      ChildWritesMembers(cs');
      forall p ensures p in ChildWrites(cs) <==>
        exists j, i :: 0 <= j < |cs| && 0 <= i < |cs[j].attrs| && p == (cs[j].local + "/" + cs[j].attrs[i].0, cs[j].attrs[i].1)
      {
        var pre := Prefixed(last.local + "/", last.attrs);
        if p in pre {
          var i :| 0 <= i < |pre| && pre[i] == p;
          assert cs[|cs| - 1].attrs[i] == last.attrs[i];
        }
        if exists j, i :: 0 <= j < |cs| && 0 <= i < |cs[j].attrs| && p == (cs[j].local + "/" + cs[j].attrs[i].0, cs[j].attrs[i].1) {
          var j, i :| 0 <= j < |cs| && 0 <= i < |cs[j].attrs| && p == (cs[j].local + "/" + cs[j].attrs[i].0, cs[j].attrs[i].1);
          if j < |cs| - 1 {
            assert cs'[j] == cs[j];
          } else {
            assert pre[i] == p;
          }
        }
      }
    }
  }

  /** No two writes use the same key (what a style with distinct attribute and child names gives). */
  predicate DistinctKeys(w: seq<(string, string)>) {
    forall i, j :: 0 <= i < j < |w| ==> w[i].0 != w[j].0
  }

  /** A flattened style holds each own attribute under its local name. */
  lemma StyleDictOwnAttributes(s: Node)
    requires ScannableStyle(s) && DistinctKeys(StyleWrites(s))
    ensures forall i :: 0 <= i < |s.attrs| ==> s.attrs[i].0 in StyleDict(s) && StyleDict(s)[s.attrs[i].0] == s.attrs[i].1
  {
    var w := StyleWrites(s);
    AssignLastWriteWins(map[], w);
    forall i | 0 <= i < |s.attrs|
      ensures s.attrs[i].0 in StyleDict(s) && StyleDict(s)[s.attrs[i].0] == s.attrs[i].1
    {
      assert w[i] == s.attrs[i];
    }
  }

  /** A flattened style holds each attribute of each property child under `child/attr`. */
  lemma StyleDictChildAttributes(s: Node)
    requires ScannableStyle(s) && DistinctKeys(StyleWrites(s))
    ensures forall j, i :: 0 <= j < |s.children| && 0 <= i < |s.children[j].attrs| ==>
      var key := s.children[j].local + "/" + s.children[j].attrs[i].0;
      key in StyleDict(s) && StyleDict(s)[key] == s.children[j].attrs[i].1
  {
    var w := StyleWrites(s);
    var cw := ChildWrites(s.children);
    AssignLastWriteWins(map[], w);
    ChildWritesMembers(s.children);
    forall j, i | 0 <= j < |s.children| && 0 <= i < |s.children[j].attrs|
      ensures s.children[j].local + "/" + s.children[j].attrs[i].0 in StyleDict(s)
      ensures StyleDict(s)[s.children[j].local + "/" + s.children[j].attrs[i].0] == s.children[j].attrs[i].1
    {
      var p := (s.children[j].local + "/" + s.children[j].attrs[i].0, s.children[j].attrs[i].1);
      assert p in cw;
      var x :| 0 <= x < |cw| && cw[x] == p;
      assert w[|s.attrs| + x] == p;
    }
  }

  /** A flattened style has no key other than an own attribute's name or a `child/attr` name. */
  lemma StyleDictNoOtherKeys(s: Node)
    requires ScannableStyle(s)
    ensures forall k :: k in StyleDict(s) ==>
      (exists i :: 0 <= i < |s.attrs| && s.attrs[i].0 == k) ||
      (exists j, i :: 0 <= j < |s.children| && 0 <= i < |s.children[j].attrs| &&
         s.children[j].local + "/" + s.children[j].attrs[i].0 == k)
  {
    var w := StyleWrites(s);
    AssignKeys(map[], w);
    ChildWritesMembers(s.children);
    forall k | k in StyleDict(s)
      ensures (exists i :: 0 <= i < |s.attrs| && s.attrs[i].0 == k) ||
        (exists j, i :: 0 <= j < |s.children| && 0 <= i < |s.children[j].attrs| &&
           s.children[j].local + "/" + s.children[j].attrs[i].0 == k)
    {
      var x :| 0 <= x < |w| && w[x].0 == k;
      if x >= |s.attrs| {
        assert w[x] in ChildWrites(s.children);
      }
    }
  }

  /** One more own attribute of `scan_style`'s first loop is one more write. */
  lemma OwnStep(attrs: seq<(string, string)>, i: nat)
    requires i < |attrs|
    ensures Assign(map[], attrs[..i + 1]) == Assign(map[], attrs[..i])[attrs[i].0 := attrs[i].1]
  {
    assert attrs[..i + 1] == attrs[..i] + [attrs[i]];
    AssignSnoc(map[], attrs[..i], attrs[i]);
  }

  /** One more attribute of a property child is one more write, keyed `child/attr`. */
  lemma ChildStep(before: seq<(string, string)>, prefix: string, attrs: seq<(string, string)>, k: nat)
    requires k < |attrs|
    ensures Assign(map[], before + Prefixed(prefix, attrs[..k + 1]))
         == Assign(map[], before + Prefixed(prefix, attrs[..k]))[prefix + attrs[k].0 := attrs[k].1]
  {
    var p := (prefix + attrs[k].0, attrs[k].1);
    assert before + Prefixed(prefix, attrs[..k + 1]) == before + Prefixed(prefix, attrs[..k]) + [p];
    AssignSnoc(map[], before + Prefixed(prefix, attrs[..k]), p);
  }

  /** After all attributes of child `j`, the writes are those of the first `j + 1` children. */
  lemma ChildDone(s: Node, j: nat)
    requires ScannableStyle(s) && j < |s.children|
    ensures s.children[j].Element?
    ensures s.attrs + ChildWrites(s.children[..j + 1])
         == s.attrs + ChildWrites(s.children[..j]) + Prefixed(s.children[j].local + "/", s.children[j].attrs)
  {
    assert s.children[j] in s.children;
    assert s.children[..j + 1][..j] == s.children[..j];
  }

  /** `scan_style`: own attributes first, then each property child's, filling one dictionary. */
  method ScanStyle(s: Node) returns (style: map<string, string>)
    requires ScannableStyle(s)
    ensures style == StyleDict(s)
  {
    style := map[];
    for i := 0 to |s.attrs|
      invariant style == Assign(map[], s.attrs[..i])
    {
      OwnStep(s.attrs, i);
      style := style[s.attrs[i].0 := s.attrs[i].1];
    }
    assert s.attrs[..|s.attrs|] == s.attrs + ChildWrites(s.children[..0]);
    for j := 0 to |s.children|
      invariant style == Assign(map[], s.attrs + ChildWrites(s.children[..j]))
    {
      ChildDone(s, j);
      var n := s.children[j];
      ghost var before := s.attrs + ChildWrites(s.children[..j]);
      assert before + Prefixed(n.local + "/", n.attrs[..0]) == before;
      for k := 0 to |n.attrs|
        invariant style == Assign(map[], before + Prefixed(n.local + "/", n.attrs[..k]))
      {
        ChildStep(before, n.local + "/", n.attrs, k);
        style := style[n.local + "/" + n.attrs[k].0 := n.attrs[k].1];
      }
      assert n.attrs[..|n.attrs|] == n.attrs;
    }
    assert s.children[..|s.children|] == s.children;
  }

  // ---------------------------------------------------------------- odf_get_styles

  /** The dictionary entry under `key`, or `''` when there is none. */
  function Lookup(d: map<string, string>, key: string): string {
    if key in d then d[key] else ""
  }

  /** A style record with the three font fields lifted out of its dictionary. */
  function NewStyle(name: string, dict: map<string, string>): OdfStyle {
    OdfStyle(name, Lookup(dict, FontNameKey), Lookup(dict, FontWeightKey), Lookup(dict, FontStyleKey), dict)
  }

  /** The table `odf_get_styles` builds from the automatic-style definitions, in order. */
  function StyleTableOf(autos: seq<Node>): StyleTable
    requires AllScannable(autos)
  {
    if |autos| == 0 then map[]
    else
      var t := StyleTableOf(autos[..|autos| - 1]);
      var a := autos[|autos| - 1];
      match AttributeValue(a.attrs, "name")
      case None => t
      case Some(name) => t[name := NewStyle(name, StyleDict(a))]
  }

  /** `odf_get_styles`: one record per named automatic style; a later definition of a name replaces an earlier one. */
  method GetStyles(autos: seq<Node>) returns (styles: StyleTable)
    requires AllScannable(autos)
    ensures styles == StyleTableOf(autos)
  {
    styles := map[];
    for i := 0 to |autos|
      invariant styles == StyleTableOf(autos[..i])
    {
      var ast := autos[i];
      assert autos[..i + 1][..i] == autos[..i];
      var name := NodeGetAttributeValue(ast, "name");
      var dict := ScanStyle(ast);
      var fontWeight, fontName, fontStyle := "", "", "";
      if FontWeightKey in dict {
        fontWeight := dict[FontWeightKey];
      }
      if FontNameKey in dict {
        fontName := dict[FontNameKey];
      }
      if FontStyleKey in dict {
        fontStyle := dict[FontStyleKey];
      }
      if name.Some? {
        styles := styles[name.value := OdfStyle(name.value, fontName, fontWeight, fontStyle, dict)];
      }
    }
    assert autos[..|autos|] == autos;
  }

  /** The index of the last definition carrying `name`, or -1 when none does. */
  function LastNamed(autos: seq<Node>, name: string): (i: int)
    requires AllScannable(autos)
    ensures -1 <= i < |autos|
  {
    if |autos| == 0 then -1
    else if AttributeValue(autos[|autos| - 1].attrs, "name") == Some(name) then |autos| - 1
    else LastNamed(autos[..|autos| - 1], name)
  }

  /** `LastNamed` finds the last definition with that name, and none when no definition has it. */
  lemma {:induction false} LastNamedIsLast(autos: seq<Node>, name: string)
    requires AllScannable(autos)
    ensures var i := LastNamed(autos, name);
      && (i >= 0 ==> AttributeValue(autos[i].attrs, "name") == Some(name))
      && (forall j :: i < j < |autos| ==> AttributeValue(autos[j].attrs, "name") != Some(name))
  {
    if |autos| > 0 && AttributeValue(autos[|autos| - 1].attrs, "name") != Some(name) {
      var prefix := autos[..|autos| - 1];
      LastNamedIsLast(prefix, name);
      var i := LastNamed(prefix, name);
      if i >= 0 {
        assert autos[i] == prefix[i];
      }
      forall j | i < j < |autos|
        ensures AttributeValue(autos[j].attrs, "name") != Some(name)
      {
        if j < |autos| - 1 {
          assert autos[j] == prefix[j];
        }
      }
    }
  }

  /** Every named definition has an entry in the table. */
  lemma {:induction false} StyleTableHasEveryName(autos: seq<Node>)
    requires AllScannable(autos)
    ensures forall i :: 0 <= i < |autos| && AttributeValue(autos[i].attrs, "name").Some? ==>
      AttributeValue(autos[i].attrs, "name").value in StyleTableOf(autos)
  {
    if |autos| > 0 {
      var prefix := autos[..|autos| - 1];
      StyleTableHasEveryName(prefix);
      forall i | 0 <= i < |autos| - 1 && AttributeValue(autos[i].attrs, "name").Some?
        ensures AttributeValue(autos[i].attrs, "name").value in StyleTableOf(autos)
      {
        assert autos[i] == prefix[i];
      }
    }
  }

  /**
   * Every entry carries its own name, and its font fields are the
   * `text-properties/...` entries of its dictionary, or `''` when absent.
   */
  lemma {:induction false} StyleTableFontsLifted(autos: seq<Node>)
    requires AllScannable(autos)
    ensures forall name :: name in StyleTableOf(autos) ==>
      var st := StyleTableOf(autos)[name];
      && st.name == name
      && st.fontWeight == Lookup(st.dict, FontWeightKey)
      && st.fontName == Lookup(st.dict, FontNameKey)
      && st.fontStyle == Lookup(st.dict, FontStyleKey)
  {
    if |autos| > 0 {
      StyleTableFontsLifted(autos[..|autos| - 1]);
    }
  }

  /**
   * A name has an entry exactly when some definition carries it, and the entry
   * is built from the last such definition.
   */
  lemma {:induction false} StyleEntryFromLastDefinition(autos: seq<Node>, name: string)
    requires AllScannable(autos)
    ensures name in StyleTableOf(autos) <==> LastNamed(autos, name) >= 0
    ensures name in StyleTableOf(autos) ==>
      StyleTableOf(autos)[name] == NewStyle(name, StyleDict(autos[LastNamed(autos, name)]))
  {
    if |autos| > 0 {
      var prefix := autos[..|autos| - 1];
      StyleEntryFromLastDefinition(prefix, name);
      var i := LastNamed(prefix, name);
      if i >= 0 {
        assert autos[i] == prefix[i];
      }
    }
  }

  // ---------------------------------------------------------------- odf_get_node_style

  /**
   * The style a node names through its `style-name` attribute: none for a text
   * node, for an element without that attribute, or for a name the table lacks.
   */
  function NodeStyle(n: Node, styles: StyleTable): (r: Option<OdfStyle>)
    ensures r.Some? <==> n.Element? && AttributeValue(n.attrs, "style-name").Some?
                         && AttributeValue(n.attrs, "style-name").value in styles
    ensures r.Some? ==> r.value == styles[AttributeValue(n.attrs, "style-name").value]
  {
    if n.Text? then None
    else match AttributeValue(n.attrs, "style-name")
      case None => None
      case Some(name) => if name in styles then Some(styles[name]) else None
  }

  /** With a table built by `odf_get_styles`, the style found for a node carries the name the node asked for. */
  lemma NodeStyleCarriesName(n: Node, autos: seq<Node>)
    requires AllScannable(autos)
    ensures NodeStyle(n, StyleTableOf(autos)).Some? ==>
      NodeStyle(n, StyleTableOf(autos)).value.name == AttributeValue(n.attrs, "style-name").value
  {
    StyleTableFontsLifted(autos);
  }
}
