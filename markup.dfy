/**
 * The element builder of libfajr/markup: content is accumulated item by item
 * (text coerced to unicode, nested builders turned into elements at append
 * time) and an element is then built in which text runs merge into the
 * element's text or into the tail of the child appended last.
 */
module Markup {
  import opened Wrappers

  /** An XML/HTML element as lxml exposes it: tag, attributes, text, children, tail. */
  datatype Element = Element(
    tag: string,
    attributes: map<string, string>,
    text: Option<string>,
    children: seq<Element>,
    tail: Option<string>)

  /** What the builder's content list holds once `append` has coerced it. */
  datatype Content = TextContent(s: string) | ElementContent(e: Element)

  /** An argument of `append`, by the Python type the source dispatches on. */
  datatype Item =
    | NoneItem                          // None: skipped
    | StrItem(s: string)                // str: decoded as UTF-8
    | UnicodeItem(s: string)            // unicode: kept
    | BuilderItem(b: ElementBuilder)    // ElementBuilder: built now
    | ElementItem(e: Element)           // an lxml element: kept
    | OtherItem                         // anything else: TypeError

  /** `append`'s outcome: the builder itself (for chaining) or the TypeError's index. */
  datatype Appended = Chained(builder: ElementBuilder) | BadArgument(index: nat)

  /** `(a or u'') + b` where b is present; `a` unchanged when nothing is added. */
  function Join(a: Option<string>, b: Option<string>): Option<string>
  {
    if b.None? then a else Some(OrEmpty(a) + b.value)
  }

  /** The text items before the first element item, concatenated (None if there are none). */
  function LeadingText(c: seq<Content>): Option<string>
  {
    if c == [] || c[0].ElementContent? then None
    else Some(c[0].s + OrEmpty(LeadingText(c[1..])))
  }

  /** The element items in order, each with the text items that follow it joined onto its tail. */
  function ChildrenOf(c: seq<Content>): seq<Element>
  {
    if c == [] then []
    else if c[0].TextContent? then ChildrenOf(c[1..])
    else [c[0].e.(tail := Join(c[0].e.tail, LeadingText(c[1..])))] + ChildrenOf(c[1..])
  }

  /** The element that `create_element` builds from a tag, attributes and content. */
  function Assemble(tag: string, attributes: map<string, string>, c: seq<Content>): Element
  {
    Element(tag, attributes, LeadingText(c), ChildrenOf(c), None)
  }

  /** Attributes from the positional dict first, keyword attributes second. */
  function MergeAttributes(attributes: Option<map<string, string>>, attributesKw: map<string, string>): (r: map<string, string>)
    ensures attributes.Some? ==> r.Keys == attributes.value.Keys + attributesKw.Keys
    ensures attributes.None? ==> r == attributesKw
    ensures forall k :: k in attributesKw ==> r[k] == attributesKw[k]
    ensures attributes.Some? ==> forall k :: k in attributes.value && k !in attributesKw ==> r[k] == attributes.value[k]
  {
    UpdatedWith(if attributes.Some? then attributes.value else map[], attributesKw)
  }

  class ElementBuilder {
    const tag: string
    const attributes: map<string, string>
    var content: seq<Content>

    constructor (tag: string, attributes: Option<map<string, string>>, attributesKw: map<string, string>)
      ensures this.tag == tag && this.attributes == MergeAttributes(attributes, attributesKw)
      ensures content == []
    {
      this.tag := tag;
      this.attributes := MergeAttributes(attributes, attributesKw);
      content := [];
    }

    /** `create_element`: text before any child goes to the text, later text to the last child's tail. */
    method CreateElement() returns (el: Element)
      ensures el == Assemble(tag, attributes, content)
    {
      el := Element(tag, attributes, None, [], None);
      for i := 0 to |content|
        invariant el == Assemble(tag, attributes, content[..i])
      {
        assert content[..i + 1] == content[..i] + [content[i]];
        match content[i]
        case TextContent(s) =>
          TextStep(content[..i], s);
          if |el.children| > 0 {
            var n := |el.children|;
            var last := el.children[n - 1];
            el := el.(children := el.children[..n - 1] + [last.(tail := Some(OrEmpty(last.tail) + s))]);
          } else {
            el := el.(text := Some(OrEmpty(el.text) + s));
          }
        case ElementContent(e) =>
          ElementStep(content[..i], e);
          el := el.(children := el.children + [e]);
      }
      assert content[..|content|] == content;
    }

    /**
     * `append` (and `__call__`, which is `append`): items are coerced and added in
     * order; at the first item of an unsupported type the items before it stay
     * added and the TypeError carries its index.
     */
    method Append(items: seq<Item>) returns (r: Appended)
      requires NotSelf(items)
      modifies this
      ensures content == old(content) + Coerced(items, FirstBad(items))
      ensures r == if FirstBad(items) == |items| then Chained(this) else BadArgument(FirstBad(items))
    {
      NotSelfBuilders(items);
      var i := 0;
      while i < |items|
        invariant 0 <= i <= FirstBad(items)
        invariant content == old(content) + Coerced(items, i)
      {
        if items[i].OtherItem? {
          return BadArgument(i);
        }
        AppendItem(items, i, old(content));
        i := i + 1;
      }
      return Chained(this);
    }

    /** The loop body of `append` for one accepted item: the item's coerced content is added. */
    method AppendItem(items: seq<Item>, i: nat, ghost start: seq<Content>)
      requires i < |items| && !items[i].OtherItem? && this !in Builders(items)
      requires content == start + Coerced(items, i)
      modifies this
      ensures content == start + Coerced(items, i + 1)
    {
      var added := Coerce(items[i]);
      assert Coerced(items, i + 1) == Coerced(items, i) + added;
      content := content + added;
    }

    /** One accepted item as content: None adds nothing, text adds text, a builder is built. */
    static method Coerce(item: Item) returns (added: seq<Content>)
      requires !item.OtherItem?
      ensures added == CoercedItem(item)
    {
      match item {
        case NoneItem => added := [];
        case StrItem(s) => added := [TextContent(s)];
        case UnicodeItem(s) => added := [TextContent(s)];
        case BuilderItem(b) =>
          var e := b.CreateElement();
          added := [ElementContent(e)];
        case ElementItem(e) => added := [ElementContent(e)];
      }
    }

    /** `__call__`: the same as `append`, so `E('a')(x)(y)` chains. */
    method Call(items: seq<Item>) returns (r: Appended)
      requires NotSelf(items)
      modifies this
      ensures content == old(content) + Coerced(items, FirstBad(items))
      ensures r == if FirstBad(items) == |items| then Chained(this) else BadArgument(FirstBad(items))
    {
      r := Append(items);
    }

    predicate NotSelf(items: seq<Item>)
    {
      forall i :: 0 <= i < |items| && items[i].BuilderItem? ==> items[i].b != this
    }

    lemma NotSelfBuilders(items: seq<Item>)
      requires NotSelf(items)
      ensures this !in Builders(items)
    {
    }
  }

  /** The builders among the items: the objects whose content `append` reads. */
  function Builders(items: seq<Item>): set<ElementBuilder>
  {
    set i | 0 <= i < |items| && items[i].BuilderItem? :: items[i].b
  }

  /** Index of the first item `append` refuses, or |items| if it accepts them all. */
  function FirstBad(items: seq<Item>): (k: nat)
    ensures k <= |items|
    ensures forall i :: 0 <= i < k ==> !items[i].OtherItem?
    ensures k < |items| ==> items[k].OtherItem?
  {
    if items == [] then 0
    else if items[0].OtherItem? then 0
    else 1 + FirstBad(items[1..])
  }

  /** The content that the first `n` items add, None items dropped and builders built. */
  function Coerced(items: seq<Item>, n: nat): seq<Content>
    requires n <= |items|
    reads Builders(items)
  {
    if n == 0 then []
    else
      assert items[n - 1].BuilderItem? ==> items[n - 1].b in Builders(items);
      Coerced(items, n - 1) + CoercedItem(items[n - 1])
  }

  function CoercedItem(item: Item): seq<Content>
    reads if item.BuilderItem? then {item.b} else {}
  {
    match item
    case NoneItem => []
    case StrItem(s) => [TextContent(s)]
    case UnicodeItem(s) => [TextContent(s)]
    case BuilderItem(b) => [ElementContent(Assemble(b.tag, b.attributes, b.content))]
    case ElementItem(e) => [ElementContent(e)]
    case OtherItem => []
  }

  // ----- the step lemmas behind CreateElement's loop -----

  lemma {:induction false} JoinAssoc(a: Option<string>, b: Option<string>, s: string)
    ensures Join(a, Join(b, Some(s))) == Join(Join(a, b), Some(s))
  {
    assert OrEmpty(Join(a, b)) == OrEmpty(a) + OrEmpty(b);
    assert OrEmpty(a) + (OrEmpty(b) + s) == (OrEmpty(a) + OrEmpty(b)) + s;
  }

  /** Adding a text item: it extends the element text while there is no child, else the last child's tail. */
  lemma {:induction false} TextStep(c: seq<Content>, s: string)
    ensures LeadingText(c + [TextContent(s)]) ==
      if ChildrenOf(c) == [] then Join(LeadingText(c), Some(s)) else LeadingText(c)
    ensures ChildrenOf(c) == [] ==> ChildrenOf(c + [TextContent(s)]) == []
    ensures ChildrenOf(c) != [] ==>
      var n := |ChildrenOf(c)|;
      var last := ChildrenOf(c)[n - 1];
      ChildrenOf(c + [TextContent(s)]) == ChildrenOf(c)[..n - 1] + [last.(tail := Join(last.tail, Some(s)))]
  {
    if c == [] {
      assert c + [TextContent(s)] == [TextContent(s)];
      assert s + "" == s && "" + s == s;
    } else {
      assert (c + [TextContent(s)])[1..] == c[1..] + [TextContent(s)];
      TextStep(c[1..], s);
      if c[0].TextContent? && ChildrenOf(c) == [] {
        var t := c[0].s;
        var m := OrEmpty(LeadingText(c[1..]));
        assert t + (m + s) == (t + m) + s;
      }
      if c[0].ElementContent? {
        var e := c[0].e;
        if ChildrenOf(c[1..]) == [] {
          JoinAssoc(e.tail, LeadingText(c[1..]), s);
        }
      }
    }
  }

  /** Adding an element item: it becomes the last child, with its own tail; the text is unchanged. */
  lemma {:induction false} ElementStep(c: seq<Content>, e: Element)
    ensures LeadingText(c + [ElementContent(e)]) == LeadingText(c)
    ensures ChildrenOf(c + [ElementContent(e)]) == ChildrenOf(c) + [e]
  {
    if c == [] {
      assert c + [ElementContent(e)] == [ElementContent(e)];
    } else {
      assert (c + [ElementContent(e)])[1..] == c[1..] + [ElementContent(e)];
      ElementStep(c[1..], e);
    }
  }

  // ----- what create_element promises about text, tails and children -----

  /** Every piece of text the content carries: text items, and the tails elements already had. */
  function AllText(c: seq<Content>): string
  {
    if c == [] then ""
    else (if c[0].TextContent? then c[0].s else OrEmpty(c[0].e.tail)) + AllText(c[1..])
  }

  /** The tails of a list of elements, concatenated in order. */
  function Tails(es: seq<Element>): string
  {
    if es == [] then "" else OrEmpty(es[0].tail) + Tails(es[1..])
  }

  /** The element items of the content, as appended. */
  function ElementsOf(c: seq<Content>): seq<Element>
  {
    if c == [] then []
    else (if c[0].ElementContent? then [c[0].e] else []) + ElementsOf(c[1..])
  }

  function WithoutTails(es: seq<Element>): seq<Element>
  {
    if es == [] then [] else [es[0].(tail := None)] + WithoutTails(es[1..])
  }

  lemma {:induction false} Associative(a: string, b: string, c: string)
    ensures (a + b) + c == a + (b + c)
  {
  }

  /** The text and tails of content that starts with a text item. */
  lemma {:induction false} TextHead(c: seq<Content>)
    requires c != [] && c[0].TextContent?
    ensures OrEmpty(LeadingText(c)) + Tails(ChildrenOf(c)) ==
      c[0].s + (OrEmpty(LeadingText(c[1..])) + Tails(ChildrenOf(c[1..])))
  {
    var t := c[0].s;
    var m := OrEmpty(LeadingText(c[1..]));
    var rest := Tails(ChildrenOf(c[1..]));
    assert LeadingText(c) == Some(t + m);
    assert Tails(ChildrenOf(c)) == rest;
    Associative(t, m, rest);
  }

  /** The text and tails of content that starts with an element item. */
  lemma {:induction false} ElementHead(c: seq<Content>)
    requires c != [] && c[0].ElementContent?
    ensures OrEmpty(LeadingText(c)) + Tails(ChildrenOf(c)) ==
      OrEmpty(c[0].e.tail) + (OrEmpty(LeadingText(c[1..])) + Tails(ChildrenOf(c[1..])))
  {
    var e := c[0].e;
    var m := OrEmpty(LeadingText(c[1..]));
    var rest := Tails(ChildrenOf(c[1..]));
    var first := e.(tail := Join(e.tail, LeadingText(c[1..])));
    assert LeadingText(c) == None;
    assert ChildrenOf(c) == [first] + ChildrenOf(c[1..]);
    TailsCons(first, ChildrenOf(c[1..]));
    assert OrEmpty(first.tail) == OrEmpty(e.tail) + m;
    Associative(OrEmpty(e.tail), m, rest);
    assert "" + Tails(ChildrenOf(c)) == Tails(ChildrenOf(c));
  }

  lemma {:induction false} TailsCons(x: Element, xs: seq<Element>)
    ensures Tails([x] + xs) == OrEmpty(x.tail) + Tails(xs)
  {
    assert ([x] + xs)[0] == x && ([x] + xs)[1..] == xs;
  }

  /** No text is lost or reordered: the element's text followed by its children's tails is all the text. */
  lemma {:induction false} TextAndTailsKeepAllText(c: seq<Content>)
    ensures OrEmpty(LeadingText(c)) + Tails(ChildrenOf(c)) == AllText(c)
  {
    if c != [] {
      TextAndTailsKeepAllText(c[1..]);
      if c[0].TextContent? {
        TextHead(c);
      } else {
        ElementHead(c);
      }
    }
  }

  /** The children are exactly the element items, in append order; only their tails change. */
  lemma {:induction false} ChildrenKeepAppendOrder(c: seq<Content>)
    ensures |ChildrenOf(c)| == |ElementsOf(c)|
    ensures WithoutTails(ChildrenOf(c)) == WithoutTails(ElementsOf(c))
  {
    if c != [] {
      ChildrenKeepAppendOrder(c[1..]);
      if c[0].ElementContent? {
        var e := c[0].e;
        var ch := [e.(tail := Join(e.tail, LeadingText(c[1..])))] + ChildrenOf(c[1..]);
        assert ch[1..] == ChildrenOf(c[1..]);
        assert ([e] + ElementsOf(c[1..]))[1..] == ElementsOf(c[1..]);
      } else {
        assert ElementsOf(c) == ElementsOf(c[1..]);
      }
    }
  }

  /**
   * What `create_element` builds: the tag and attributes given, no tail, no
   * text lost or reordered, and the element items as children in order, up
   * to their tails.
   */
  lemma {:induction false} AssembleKeepsContent(tag: string, attributes: map<string, string>, c: seq<Content>)
    ensures var e := Assemble(tag, attributes, c);
      && e.tag == tag && e.attributes == attributes && e.tail == None
      && OrEmpty(e.text) + Tails(e.children) == AllText(c)
      && |e.children| == |ElementsOf(c)|
      && WithoutTails(e.children) == WithoutTails(ElementsOf(c))
  {
    TextAndTailsKeepAllText(c);
    ChildrenKeepAppendOrder(c);
  }

  /** Content made only of elements: no text, and the children are the elements unchanged. */
  lemma {:induction false} ElementsOnly(c: seq<Content>)
    requires forall i :: 0 <= i < |c| ==> c[i].ElementContent?
    ensures LeadingText(c) == None
    ensures ChildrenOf(c) == ElementsOf(c)
  {
    if c != [] {
      ElementsOnly(c[1..]);
    }
  }

  /** The builder test: 'he','ad',<other>,'ta',(None),'il',<ya> gives text "head" and other's tail "tail". */
  lemma {:induction false} HeadTailExample()
    ensures
      var other := Element("other", map[], None, [], None);
      var ya := Element("ya", map[], None, [], None);
      var c := [TextContent("he"), TextContent("ad"), ElementContent(other),
                TextContent("ta"), TextContent("il"), ElementContent(ya)];
      Assemble("tag", map["attribute" := "value"], c) ==
        Element("tag", map["attribute" := "value"], Some("head"), [other.(tail := Some("tail")), ya], None)
  {
    var other := Element("other", map[], None, [], None);
    var ya := Element("ya", map[], None, [], None);
    var c := [TextContent("he"), TextContent("ad"), ElementContent(other),
              TextContent("ta"), TextContent("il"), ElementContent(ya)];
    assert c[5..][1..] == [];
    assert c[4..][1..] == c[5..] && c[3..][1..] == c[4..] && c[2..][1..] == c[3..];
    assert c[1..][1..] == c[2..] && c[1..] == c[1..];
    assert LeadingText(c[5..]) == None && ChildrenOf(c[5..]) == [ya];
    assert "il" + "" == "il" && "ta" + "il" == "tail" && "" + "tail" == "tail";
    assert LeadingText(c[4..]) == Some("il") && ChildrenOf(c[4..]) == [ya];
    assert LeadingText(c[3..]) == Some("tail") && ChildrenOf(c[3..]) == [ya];
    assert ChildrenOf(c[2..]) == [other.(tail := Some("tail")), ya];
    assert "ad" + "" == "ad" && "he" + "ad" == "head";
    assert LeadingText(c[2..]) == None;
    assert LeadingText(c[1..]) == Some("ad");
    assert LeadingText(c) == Some("head");
  }

  /**
   * The builder test end to end: `E('tag', attribute=u'value')(u'he', u'ad',
   * E('other'), u'ta', None, u'il', E('ya')())`, then `create_element`. The
   * `None` adds nothing and both nested builders are built as empty elements.
   */
  method HeadTailBuilt() returns (el: Element)
    ensures el == Element("tag", map["attribute" := "value"], Some("head"),
      [Element("other", map[], None, [], Some("tail")), Element("ya", map[], None, [], None)], None)
  {
    var other := new ElementBuilder("other", None, map[]);
    var ya := new ElementBuilder("ya", None, map[]);
    var called := ya.Call([]);
    assert ya.content == [];
    var b := new ElementBuilder("tag", None, map["attribute" := "value"]);
    var items := [UnicodeItem("he"), UnicodeItem("ad"), BuilderItem(other), UnicodeItem("ta"),
                  NoneItem, UnicodeItem("il"), BuilderItem(ya)];
    assert FirstBad(items) == 7;
    var appended := b.Call(items);
    assert b.content == Coerced(items, 7);
    HeadTailCoerced(items, other, ya);
    assert b.tag == "tag" && b.attributes == map["attribute" := "value"];
    el := b.CreateElement();
    assert el == Assemble("tag", map["attribute" := "value"], [TextContent("he"), TextContent("ad"),
      ElementContent(Element("other", map[], None, [], None)), TextContent("ta"), TextContent("il"),
      ElementContent(Element("ya", map[], None, [], None))]);
    HeadTailExample();
  }

  /** The test's items coerced: the `None` dropped, the two empty builders built. */
  lemma {:induction false} HeadTailCoerced(items: seq<Item>, other: ElementBuilder, ya: ElementBuilder)
    requires items == [UnicodeItem("he"), UnicodeItem("ad"), BuilderItem(other), UnicodeItem("ta"),
                       NoneItem, UnicodeItem("il"), BuilderItem(ya)]
    requires other.tag == "other" && other.attributes == map[] && other.content == []
    requires ya.tag == "ya" && ya.attributes == map[] && ya.content == []
    ensures Coerced(items, 7) == [TextContent("he"), TextContent("ad"),
      ElementContent(Element("other", map[], None, [], None)), TextContent("ta"), TextContent("il"),
      ElementContent(Element("ya", map[], None, [], None))]
  {
    var e1 := Element("other", map[], None, [], None);
    var e2 := Element("ya", map[], None, [], None);
    assert CoercedItem(items[2]) == [ElementContent(e1)];
    assert CoercedItem(items[6]) == [ElementContent(e2)];
    var c0 := Coerced(items, 0);
    assert c0 == [];
    var c1 := Coerced(items, 1);
    assert c1 == [TextContent("he")];
    var c2 := Coerced(items, 2);
    assert c2 == c1 + [TextContent("ad")];
    var c3 := Coerced(items, 3);
    assert c3 == c2 + [ElementContent(e1)];
    var c4 := Coerced(items, 4);
    assert c4 == c3 + [TextContent("ta")];
    assert Coerced(items, 5) == c4 + [];
    var c6 := Coerced(items, 6);
    assert c6 == c4 + [TextContent("il")];
    assert Coerced(items, 7) == c6 + [ElementContent(e2)];
  }
}
