/**
 * The component tree of libfajr/webui: components built from the `jsct`-bearing
 * nodes of an already-parsed page. Built components are never changed after
 * they are made, so they are values here; the mutable part (a dialog's list
 * and name index) lives in the WebUI module.
 */
module Components {
  import opened Wrappers
  import opened Markup

  /** The Python class a `jsct` value selects. */
  datatype ComponentClass = ContainerClass | PlainClass | TextFieldClass | LabelClass

  /** `component_types`; anything not listed builds a container. */
  const ComponentTypes: map<string, ComponentClass> := map[
    "popupMenu" := ContainerClass,
    "panel" := ContainerClass,
    "tabbedPane" := ContainerClass,
    "menuItem" := PlainClass,
    "button" := PlainClass,
    "table" := PlainClass,
    "separator" := PlainClass,
    "textField" := TextFieldClass,
    "action" := PlainClass,
    "valueInteractive" := PlainClass,
    "label" := LabelClass
  ]

  function ClassOf(jsct: string): ComponentClass
  {
    if jsct in ComponentTypes then ComponentTypes[jsct] else ContainerClass
  }

  /** A built component: its `id`, its `jsct`, and what its class adds. */
  datatype Component = Component(name: string, jsct: string, kind: Kind)

  datatype Kind =
    | Plain
    | Label(value: string, nameFor: Option<string>)
    | TextField(value: string, readonly: bool)
    | Container(components: seq<Component>, componentsByName: map<string, Component>)

  /** The direct children of a container; nothing for the other kinds. */
  function ChildrenOfKind(c: Component): seq<Component>
  {
    if c.kind.Container? then c.kind.components else []
  }

  /** The state `walk` works on: the list, the name index, and false once a KeyError stopped it. */
  datatype Built = Built(components: seq<Component>, byName: map<string, Component>, ok: bool)

  const Fresh: Built := Built([], map[], true)

  /** `from_element` of the class the node's `jsct` selects; None where `attrib['id']` raises KeyError. */
  function FromElement(e: Element): (r: Option<Component>)
    requires "jsct" in e.attributes
    ensures r.Some? ==> "id" in e.attributes
    ensures r.Some? ==> r.value.name == e.attributes["id"] && r.value.jsct == e.attributes["jsct"]
    ensures r.Some? ==> (r.value.kind.Container? <==> ClassOf(e.attributes["jsct"]) == ContainerClass)
    decreases e, 1
  {
    if "id" !in e.attributes then None
    else
      var name, jsct, attrs := e.attributes["id"], e.attributes["jsct"], e.attributes;
      match ClassOf(jsct)
      case PlainClass => Some(Component(name, jsct, Plain))
      case LabelClass =>
        Some(Component(name, jsct, Label(OrEmpty(e.text), if "for" in attrs then Some(attrs["for"]) else None)))
      case TextFieldClass =>
        var value := if "value" in attrs then attrs["value"] else "";
        Some(Component(name, jsct, TextField(value, "_readonly" in attrs && attrs["_readonly"] == "true")))
      case ContainerClass =>
        var b := Walk(Fresh, e.children);
        if b.ok then Some(Component(name, jsct, Container(b.components, b.byName))) else None
  }

  /** One node met by `walk`: a component if it carries `jsct`, otherwise a walk of its children. */
  function Visit(acc: Built, e: Element): (r: Built)
    requires acc.ok
    ensures |acc.components| <= |r.components| && r.components[..|acc.components|] == acc.components
    decreases e, 2
  {
    if "jsct" in e.attributes then Take(acc, FromElement(e))
    else Walk(acc, e.children)
  }

  /** `walk` over a node's children, in document order, stopping at the first KeyError. */
  function Walk(acc: Built, cs: seq<Element>): (r: Built)
    ensures |acc.components| <= |r.components| && r.components[..|acc.components|] == acc.components
    ensures !acc.ok ==> r == acc
    decreases cs, 0
  {
    if cs == [] || !acc.ok then acc
    else Walk(Visit(acc, cs[0]), cs[1..])
  }

  /**
   * A component (or the KeyError met building it) taken into the state: the
   * walk goes on only after a built component, which is appended; a KeyError
   * leaves the list and the index as they were.
   */
  function Take(acc: Built, c: Option<Component>): (r: Built)
    ensures r.ok <==> acc.ok && c.Some?
    ensures c.Some? ==> r.components == acc.components + [c.value] && c.value.name in r.byName && r.byName[c.value.name] == c.value
    ensures c.None? ==> r.components == acc.components && r.byName == acc.byName
  {
    match c
    case None => acc.(ok := false)
    case Some(c) => Register(acc, c)
  }

  /**
   * The container's own children indexed first, then the component itself,
   * then appended: the component's own entry is the one kept under its name.
   */
  function Register(acc: Built, c: Component): (r: Built)
    ensures r.components == acc.components + [c] && r.ok == acc.ok
    ensures c.name in r.byName && r.byName[c.name] == c
  {
    Built(acc.components + [c], IndexInto(acc.byName, ChildrenOfKind(c))[c.name := c], acc.ok)
  }

  /** Each component written under its name, in order. */
  function IndexInto(m: map<string, Component>, cs: seq<Component>): map<string, Component>
  {
    if cs == [] then m else IndexInto(m, cs[..|cs| - 1])[cs[|cs| - 1].name := cs[|cs| - 1]]
  }

  function Names(cs: seq<Component>): set<string>
  {
    set c | c in cs :: c.name
  }

  // ----- an independent description: the frontier of jsct-bearing nodes -----

  /** The `jsct`-bearing nodes reached through nodes without `jsct`, in document order. */
  function Frontier(cs: seq<Element>): (r: seq<Element>)
    ensures forall i :: 0 <= i < |r| ==> "jsct" in r[i].attributes
  {
    if cs == [] then []
    else if "jsct" in cs[0].attributes then [cs[0]] + Frontier(cs[1..])
    else Frontier(cs[0].children) + Frontier(cs[1..])
  }

  /** Every frontier node built and registered in turn, stopping at the first failure. */
  function RegisterAll(acc: Built, fs: seq<Element>): Built
    requires forall i :: 0 <= i < |fs| ==> "jsct" in fs[i].attributes
    decreases fs
  {
    if fs == [] || !acc.ok then acc
    else RegisterAll(Take(acc, FromElement(fs[0])), fs[1..])
  }

  lemma {:induction false} RegisterAllAppend(acc: Built, a: seq<Element>, b: seq<Element>)
    requires forall i :: 0 <= i < |a| ==> "jsct" in a[i].attributes
    requires forall i :: 0 <= i < |b| ==> "jsct" in b[i].attributes
    ensures RegisterAll(acc, a + b) == RegisterAll(RegisterAll(acc, a), b)
    decreases a
  {
    if a == [] {
      assert a + b == b;
    } else if acc.ok {
      assert (a + b)[1..] == a[1..] + b;
      RegisterAllAppend(Take(acc, FromElement(a[0])), a[1..], b);
    } else {
      assert RegisterAll(acc, a + b) == acc;
      assert RegisterAll(acc, b) == acc;
    }
  }

  /**
   * `walk` makes exactly the frontier nodes into components, in document order:
   * nodes below a `jsct` node are left to that component, nodes without `jsct`
   * are looked through.
   */
  lemma {:induction false} WalkIsFrontier(acc: Built, cs: seq<Element>)
    ensures Walk(acc, cs) == RegisterAll(acc, Frontier(cs))
    decreases cs
  {
    if cs != [] && acc.ok {
      var e := cs[0];
      if "jsct" in e.attributes {
        WalkIsFrontier(Take(acc, FromElement(e)), cs[1..]);
      } else {
        WalkIsFrontier(acc, e.children);
        WalkIsFrontier(Walk(acc, e.children), cs[1..]);
        RegisterAllAppend(acc, Frontier(e.children), Frontier(cs[1..]));
      }
    }
  }

  /** Registering the frontier succeeds iff every frontier node has an `id`-bearing build. */
  lemma {:induction false} RegisterAllOk(acc: Built, fs: seq<Element>)
    requires acc.ok
    requires forall i :: 0 <= i < |fs| ==> "jsct" in fs[i].attributes
    ensures RegisterAll(acc, fs).ok <==> forall i :: 0 <= i < |fs| ==> FromElement(fs[i]).Some?
    decreases fs
  {
    if fs != [] {
      var t := Take(acc, FromElement(fs[0]));
      if t.ok {
        RegisterAllOk(t, fs[1..]);
        assert forall i :: 0 <= i < |fs| - 1 ==> fs[1..][i] == fs[i + 1];
      }
    }
  }

  /** A successful registration of the frontier appends exactly its components, in order. */
  lemma {:induction false} RegisterAllResult(acc: Built, fs: seq<Element>)
    requires acc.ok
    requires forall i :: 0 <= i < |fs| ==> "jsct" in fs[i].attributes
    requires RegisterAll(acc, fs).ok
    ensures |RegisterAll(acc, fs).components| == |acc.components| + |fs|
    ensures RegisterAll(acc, fs).components[..|acc.components|] == acc.components
    ensures forall i :: 0 <= i < |fs| ==>
      FromElement(fs[i]).Some? && RegisterAll(acc, fs).components[|acc.components| + i] == FromElement(fs[i]).value
    decreases fs
  {
    if fs != [] {
      var t := Take(acc, FromElement(fs[0]));
      assert t.ok && FromElement(fs[0]).Some?;
      assert t.components == acc.components + [FromElement(fs[0]).value];
      RegisterAllResult(t, fs[1..]);
      var r := RegisterAll(t, fs[1..]);
      forall i | 0 <= i < |fs|
        ensures FromElement(fs[i]).Some? && r.components[|acc.components| + i] == FromElement(fs[i]).value
      {
        if i == 0 {
          assert r.components[..|t.components|] == t.components;
          assert r.components[|acc.components|] == t.components[|acc.components|];
        } else {
          assert fs[1..][i - 1] == fs[i];
        }
      }
      assert r.components[..|acc.components|] == r.components[..|t.components|][..|acc.components|];
    }
  }

  /** A non-container component does not look at the nodes below it. */
  lemma {:induction false} LeafIgnoresDescendants(e: Element, below: seq<Element>)
    requires "jsct" in e.attributes && ClassOf(e.attributes["jsct"]) != ContainerClass
    ensures FromElement(e.(children := below)) == FromElement(e)
  {
  }

  /**
   * A container is built from its `id` and a fresh walk of its own children:
   * it exists iff the node has an `id` and that walk meets no KeyError, and its
   * list and index are the walk's. Any other class needs only the `id`.
   */
  lemma {:induction false} ContainerFields(e: Element)
    requires "jsct" in e.attributes
    ensures ClassOf(e.attributes["jsct"]) == ContainerClass ==>
      (FromElement(e).Some? <==> "id" in e.attributes && Walk(Fresh, e.children).ok)
    ensures ClassOf(e.attributes["jsct"]) == ContainerClass && FromElement(e).Some? ==>
      FromElement(e).value.kind == Container(Walk(Fresh, e.children).components, Walk(Fresh, e.children).byName)
    ensures ClassOf(e.attributes["jsct"]) != ContainerClass ==> (FromElement(e).Some? <==> "id" in e.attributes)
  {
  }

  /** The class table: which `jsct` values build which kind; unknown ones build containers. */
  lemma {:induction false} ClassTable(jsct: string)
    ensures ClassOf(jsct) == ContainerClass <==>
      jsct in {"popupMenu", "panel", "tabbedPane"} || jsct !in ComponentTypes
    ensures ClassOf(jsct) == LabelClass <==> jsct == "label"
    ensures ClassOf(jsct) == TextFieldClass <==> jsct == "textField"
  {
  }

  /** A label's value is its node text or ""; `name_for` is the `for` attribute if present. */
  lemma {:induction false} LabelFields(e: Element)
    requires "jsct" in e.attributes && "id" in e.attributes && e.attributes["jsct"] == "label"
    ensures FromElement(e).Some? && FromElement(e).value.kind.Label?
    ensures FromElement(e).value.kind.value == (if e.text.Some? then e.text.value else "")
    ensures FromElement(e).value.kind.nameFor.Some? <==> "for" in e.attributes
    ensures "for" in e.attributes ==> FromElement(e).value.kind.nameFor == Some(e.attributes["for"])
  {
  }

  /** A text field is read-only iff `_readonly` is exactly "true"; its value is the `value` attribute, or "" without one. */
  lemma {:induction false} TextFieldFields(e: Element)
    requires "jsct" in e.attributes && "id" in e.attributes && e.attributes["jsct"] == "textField"
    ensures FromElement(e).Some? && FromElement(e).value.kind.TextField?
    ensures FromElement(e).value.kind.readonly <==> "_readonly" in e.attributes && e.attributes["_readonly"] == "true"
    ensures "value" !in e.attributes ==> FromElement(e).value.kind.value == ""
    ensures "value" in e.attributes ==> FromElement(e).value.kind.value == e.attributes["value"]
  {
  }

  // ----- the name index -----

  function NameOf(c: Component): string
  {
    c.name
  }

  /** Writing components in order under their names gains exactly their names as keys. */
  lemma {:induction false} IndexKeys(m: map<string, Component>, cs: seq<Component>)
    ensures IndexInto(m, cs).Keys == m.Keys + Names(cs)
  {
    if cs != [] {
      var n := |cs| - 1;
      IndexKeys(m, cs[..n]);
      assert Names(cs) == Names(cs[..n]) + {cs[n].name} by {
        assert cs == cs[..n] + [cs[n]];
      }
    }
  }

  /**
   * The entry under a name is the last component written under it; a key no
   * component is written under keeps its value.
   */
  lemma {:induction false} IndexLastWins(m: map<string, Component>, cs: seq<Component>, k: string)
    ensures LastWithKey(cs, NameOf, k) >= 0 ==> k in IndexInto(m, cs) && IndexInto(m, cs)[k] == cs[LastWithKey(cs, NameOf, k)]
    ensures LastWithKey(cs, NameOf, k) < 0 && k in m ==> k in IndexInto(m, cs) && IndexInto(m, cs)[k] == m[k]
  {
    if cs != [] && cs[|cs| - 1].name != k {
      IndexLastWins(m, cs[..|cs| - 1], k);
    }
  }

  /** A component is written under a name exactly when that name is among their names. */
  lemma {:induction false} LastNamedIff(cs: seq<Component>, k: string)
    ensures LastWithKey(cs, NameOf, k) >= 0 <==> k in Names(cs)
  {
    if cs != [] {
      var n := |cs| - 1;
      LastNamedIff(cs[..n], k);
      assert Names(cs) == Names(cs[..n]) + {cs[n].name} by {
        assert cs == cs[..n] + [cs[n]];
      }
    }
  }

  /**
   * What registering one component does to the index: the container's own
   * children gain entries, the component's own entry is written last and so
   * wins, and every other key is untouched.
   */
  lemma {:induction false} RegisterIndex(acc: Built, c: Component)
    ensures Register(acc, c).byName.Keys == acc.byName.Keys + Names(ChildrenOfKind(c)) + {c.name}
    ensures Register(acc, c).byName[c.name] == c
    ensures Register(acc, c).components == acc.components + [c]
    ensures forall k :: k in acc.byName && k != c.name && k !in Names(ChildrenOfKind(c)) ==>
      Register(acc, c).byName[k] == acc.byName[k]
    ensures !c.kind.Container? ==> Register(acc, c).byName == acc.byName[c.name := c]
  {
    IndexKeys(acc.byName, ChildrenOfKind(c));
    forall k | k in acc.byName && k !in Names(ChildrenOfKind(c))
      ensures IndexInto(acc.byName, ChildrenOfKind(c))[k] == acc.byName[k]
    {
      LastNamedIff(ChildrenOfKind(c), k);
      IndexLastWins(acc.byName, ChildrenOfKind(c), k);
    }
  }
}
