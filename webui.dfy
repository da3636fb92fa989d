/**
 * The WebUI application engine of libfajr/webui: the event queue and the
 * request built from it, the dirty-tracked property bag, main dialogs and
 * their component lists, and the application state machine driven by the
 * server's response script.
 */
module WebUI {
  import opened Wrappers
  import opened Decimal
  import opened Markup
  import opened Components
  import opened Directives

  // ----- events and the request they are sent in -----

  /**
   * A queued event: its Java class name, the dialog and component it concerns
   * (by name, which is all `to_xml` reads of them) and its fields in order.
   */
  datatype Event = Event(
    className: string,
    dialog: Option<string>,
    component: Option<string>,
    fields: seq<(string, string)>)

  /** The event every new application queues first. */
  const InitEvent: Event := Event("avc.ui.event.AVCComponentEvent", None, None, [("command", "INIT")])

  /** The event `close` queues. */
  const KillEvent: Event := Event("avc.framework.webui.WebUIKillEvent", None, None, [("command", "CLOSE")])

  /** Elements as builder content. */
  function Elements(es: seq<Element>): (c: seq<Content>)
    ensures |c| == |es|
    ensures forall i :: 0 <= i < |es| ==> c[i] == ElementContent(es[i])
  {
    seq(|es|, i requires 0 <= i < |es| => ElementContent(es[i]))
  }

  /** `E(tag)(text)`: an element holding one text item. */
  function TextElement(tag: string, s: string): (e: Element)
    ensures e == Element(tag, map[], Some(s), [], None)
  {
    var c := [TextContent(s)];
    assert c[1..] == [] && s + "" == s;
    assert ChildrenOf(c[1..]) == [] && LeadingText(c[1..]) == None;
    assert LeadingText(c) == Some(s) && ChildrenOf(c) == [];
    Assemble(tag, map[], c)
  }

  function FieldElements(fields: seq<(string, string)>): seq<Element>
  {
    seq(|fields|, i requires 0 <= i < |fields| => TextElement(fields[i].0, fields[i].1))
  }

  /** `WebUIEvent.to_xml`: `dlgName` and `compName` where present, then the `event` element. */
  function EventXml(ev: Event): Element
  {
    Assemble("ev", map[], Elements(
      (if ev.dialog.Some? then [TextElement("dlgName", ev.dialog.value)] else []) +
      (if ev.component.Some? then [TextElement("compName", ev.component.value)] else []) +
      [Assemble("event", map["class" := ev.className], Elements(FieldElements(ev.fields)))]))
  }

  function EventsXml(events: seq<Event>): seq<Element>
  {
    seq(|events|, i requires 0 <= i < |events| => EventXml(events[i]))
  }

  /** The request element `execute` sends: the serial, then every queued event. */
  function RequestXml(serial: nat, events: seq<Event>): Element
  {
    Assemble("request", map[], Elements([
      TextElement("serial", NatToString(serial)),
      Assemble("events", map[], Elements(EventsXml(events)))]))
  }

  lemma {:induction false} ElementsOfElements(es: seq<Element>)
    ensures ElementsOf(Elements(es)) == es
  {
    if es != [] {
      ElementsOfElements(es[1..]);
      assert Elements(es)[1..] == Elements(es[1..]);
      assert [es[0]] + es[1..] == es;
    }
  }

  /** Content made of elements builds an element with no text whose children are those elements. */
  lemma {:induction false} AssembleElements(tag: string, attributes: map<string, string>, es: seq<Element>)
    ensures Assemble(tag, attributes, Elements(es)) == Element(tag, attributes, None, es, None)
  {
    ElementsOnly(Elements(es));
    ElementsOfElements(es);
  }

  /**
   * The shape of an `ev` element: `dlgName` iff the event has a dialog,
   * `compName` iff it has a component, and last one `event` element whose
   * `class` is the class name and which has one child per field, in order.
   */
  lemma {:induction false} EventXmlShape(ev: Event)
    ensures var x := EventXml(ev);
      var k := (if ev.dialog.Some? then 1 else 0) + (if ev.component.Some? then 1 else 0);
      && x.tag == "ev" && x.text == None && |x.children| == k + 1
      && (ev.dialog.Some? ==> x.children[0] == Element("dlgName", map[], ev.dialog, [], None))
      && (ev.component.Some? ==> x.children[k - 1] == Element("compName", map[], ev.component, [], None))
      && x.children[k].tag == "event" && x.children[k].attributes == map["class" := ev.className]
      && x.children[k].text == None && |x.children[k].children| == |ev.fields|
      && forall i :: 0 <= i < |ev.fields| ==>
           x.children[k].children[i] == Element(ev.fields[i].0, map[], Some(ev.fields[i].1), [], None)
  {
    var fieldEls := FieldElements(ev.fields);
    AssembleElements("event", map["class" := ev.className], fieldEls);
    var inner :=
      (if ev.dialog.Some? then [TextElement("dlgName", ev.dialog.value)] else []) +
      (if ev.component.Some? then [TextElement("compName", ev.component.value)] else []) +
      [Assemble("event", map["class" := ev.className], Elements(fieldEls))];
    AssembleElements("ev", map[], inner);
  }

  /**
   * The request holds the serial as decimal text that reads back as the
   * serial, then an `events` element with one `ev` per queued event, in order.
   */
  lemma {:induction false} RequestShape(serial: nat, events: seq<Event>)
    ensures var x := RequestXml(serial, events);
      && x.tag == "request" && x.text == None && |x.children| == 2
      && x.children[0] == Element("serial", map[], Some(NatToString(serial)), [], None)
      && TakeNumber(x.children[0].text.value) == Some((serial, ""))
      && x.children[1].tag == "events" && |x.children[1].children| == |events|
      && forall i :: 0 <= i < |events| ==> x.children[1].children[i] == EventXml(events[i])
  {
    AssembleElements("events", map[], EventsXml(events));
    AssembleElements("request", map[], [
      TextElement("serial", NatToString(serial)),
      Assemble("events", map[], Elements(EventsXml(events)))]);
    NumberRoundTrip(serial, "");
    assert NatToString(serial) + "" == NatToString(serial);
  }

  // ----- WebUIProperties -----

  /** A key/value bag that remembers which keys were set since the last flush. */
  class WebUIProperties<V> {
    const name: string
    var current: map<string, V>
    var changed: map<string, V>

    /** Every changed key is current, with the value it was changed to. */
    ghost predicate Valid()
      reads this
    {
      forall k :: k in changed ==> k in current && current[k] == changed[k]
    }

    /** The initial values count as changed. */
    constructor (name: string, initial: map<string, V>)
      ensures Valid()
      ensures this.name == name && current == initial && changed == initial
    {
      this.name := name;
      current := initial;
      changed := initial;
    }

    /** `__setitem__`: the value goes into both maps. */
    method Set(key: string, value: V)
      requires Valid()
      modifies this
      ensures Valid()
      ensures current == old(current)[key := value] && changed == old(changed)[key := value]
    {
      current := current[key := value];
      changed := changed[key := value];
    }

    /** `flush_changes`: hands back the changed map and starts a new, empty one. */
    method FlushChanges() returns (r: map<string, V>)
      requires Valid()
      modifies this`changed
      ensures Valid()
      ensures r == old(changed) && changed == map[] && current == old(current)
      ensures forall k :: k in r ==> k in current && current[k] == r[k]
    {
      r := changed;
      changed := map[];
    }

    /** `__getitem__`: a missing key is a KeyError. */
    function GetItem(key: string): (r: Result<V, LookupError>)
      reads this
      ensures r.Err? <==> key !in current
      ensures r.Err? ==> r.error == KeyError(key)
      ensures r.Ok? ==> r.value == current[key]
    {
      if key in current then Ok(current[key]) else Err(KeyError(key))
    }

    /** `get`: the default for a missing key. */
    function Get(key: string, default: V): (r: V)
      reads this
      ensures key in current ==> r == current[key]
      ensures key !in current ==> r == default
    {
      if key in current then current[key] else default
    }

    /** `__contains__`: exactly the keys `__getitem__` finds. */
    predicate Contains(key: string)
      reads this
      ensures Contains(key) <==> GetItem(key).Ok?
    {
      key in current
    }

    /** `__iter__`: the current keys (in no particular order), exactly those it contains. */
    function Keys(): (ks: set<string>)
      reads this
      ensures forall k :: k in ks <==> Contains(k)
    {
      current.Keys
    }

    /** `__len__`: the number of keys it iterates over; zero exactly when it holds nothing. */
    function Length(): (n: nat)
      reads this
      ensures n == |Keys()|
      ensures n == 0 <==> current == map[]
    {
      |current.Keys|
    }
  }

  // ----- main dialogs -----

  /** A main dialog: a container of type `body` whose events go to its application. */
  class WebUIMainDialog {
    const app: WebUIApplication
    const name: string
    const title: string
    var components: seq<Component>
    var componentsByName: map<string, Component>

    constructor (app: WebUIApplication, name: string, title: string)
      ensures this.app == app && this.name == name && this.title == title
      ensures components == [] && componentsByName == map[]
    {
      this.app := app;
      this.name := name;
      this.title := title;
      components := [];
      componentsByName := map[];
    }

    /** The list and the index as the walk sees them, before any failure. */
    function State(): Built
      reads this
    {
      Built(components, componentsByName, true)
    }

    /**
     * `build_components`: walks the children of `root` and adds what it finds
     * to the existing list and index (nothing is cleared first). A node with
     * `jsct` and no `id` stops the walk with `ok` false, keeping what was added
     * before it.
     */
    method BuildComponents(root: Element) returns (ok: bool)
      modifies this
      ensures Built(components, componentsByName, ok) == Walk(old(State()), root.children)
      ensures components[..|old(components)|] == old(components)
    {
      ok := WalkInto(root.children);
    }

    /** `open`, from the already-fetched `[jsct=body]` node of the dialog's page. */
    method Open(body: Element) returns (ok: bool)
      modifies this
      ensures Built(components, componentsByName, ok) == Walk(old(State()), body.children)
      ensures components[..|old(components)|] == old(components)
    {
      ok := BuildComponents(body);
    }

    /** The inner `walk`: one component per `jsct` node, looking through the other nodes. */
    method WalkInto(cs: seq<Element>) returns (ok: bool)
      modifies this
      ensures Built(components, componentsByName, ok) == Walk(old(State()), cs)
      decreases cs
    {
      ok := true;
      for i := 0 to |cs|
        invariant Walk(State(), cs[i..]) == Walk(old(State()), cs)
      {
        var e := cs[i];
        assert cs[i..][1..] == cs[i + 1..];
        if "jsct" in e.attributes {
          var c := FromElement(e);
          if c.None? {
            ok := false;
            return;
          }
          Add(c.value);
        } else {
          ok := WalkInto(e.children);
          if !ok {
            return;
          }
        }
      }
    }

    /** A built component: a container's children indexed, then the component, then appended. */
    method Add(c: Component)
      modifies this
      ensures State() == Register(old(State()), c)
    {
      var kids := ChildrenOfKind(c);
      for j := 0 to |kids|
        invariant componentsByName == IndexInto(old(componentsByName), kids[..j])
        invariant components == old(components)
      {
        assert kids[..j + 1][..j] == kids[..j];
        componentsByName := componentsByName[kids[j].name := kids[j]];
      }
      assert kids[..|kids|] == kids;
      componentsByName := componentsByName[c.name := c];
      components := components + [c];
    }

    /** `fire_event`: the event is stamped with this dialog and queued on the application. */
    method FireEvent(ev: Event)
      modifies app`events
      ensures app.events == old(app.events) + [ev.(dialog := Some(name))]
    {
      app.FireEvent(ev.(dialog := Some(name)));
    }
  }

  // ----- the application -----

  /** Names and titles of the dialogs registered so far; a repeated name takes the later title. */
  function RegisterTitles(m: map<string, string>, ds: seq<DialogDirective>): map<string, string>
  {
    if ds == [] then m else RegisterTitles(m, ds[..|ds| - 1])[ds[|ds| - 1].name := ds[|ds| - 1].title]
  }

  function DirectiveNames(ds: seq<DialogDirective>): set<string>
  {
    set d | d in ds :: d.name
  }

  /** One more directive of a list: its name and title are written last. */
  lemma {:induction false} RegisterTitlesStep(m: map<string, string>, ds: seq<DialogDirective>, i: nat)
    requires i < |ds|
    ensures RegisterTitles(m, ds[..i + 1]) == RegisterTitles(m, ds[..i])[ds[i].name := ds[i].title]
    ensures DirectiveNames(ds[..i + 1]) == DirectiveNames(ds[..i]) + {ds[i].name}
  {
    assert ds[..i + 1] == ds[..i] + [ds[i]];
    assert ds[..i + 1][..i] == ds[..i];
  }

  function DirectiveName(d: DialogDirective): string
  {
    d.name
  }

  /** Each dialog directive adds its name, and no other name is added. */
  lemma {:induction false} RegisterTitlesKeys(m: map<string, string>, ds: seq<DialogDirective>)
    ensures RegisterTitles(m, ds).Keys == m.Keys + DirectiveNames(ds)
  {
    if ds != [] {
      var n := |ds| - 1;
      RegisterTitlesKeys(m, ds[..n]);
      assert DirectiveNames(ds) == DirectiveNames(ds[..n]) + {ds[n].name} by {
        assert ds == ds[..n] + [ds[n]];
      }
    }
  }

  /** No later dialog call reuses the first call's name, so the first call's form stays registered. */
  predicate FirstKept(ds: seq<DialogDirective>)
    requires ds != []
  {
    LastWithKey(ds, DirectiveName, ds[0].name) == 0
  }

  /** One more call keeps the first form registered iff it was kept and the call has another name. */
  lemma {:induction false} FirstKeptStep(ds: seq<DialogDirective>, i: nat)
    requires i < |ds|
    ensures i == 0 ==> FirstKept(ds[..1])
    ensures i > 0 ==> (FirstKept(ds[..i + 1]) <==> FirstKept(ds[..i]) && ds[i].name != ds[0].name)
  {
    assert ds[..i + 1][..i] == ds[..i];
    assert ds[..i + 1][0] == ds[0];
  }

  /**
   * The title kept under a name is the one of its last directive; a name no
   * directive carries keeps its title.
   */
  lemma {:induction false} RegisterTitlesLastWins(m: map<string, string>, ds: seq<DialogDirective>, k: string)
    ensures LastWithKey(ds, DirectiveName, k) >= 0 ==>
      k in RegisterTitles(m, ds) && RegisterTitles(m, ds)[k] == ds[LastWithKey(ds, DirectiveName, k)].title
    ensures LastWithKey(ds, DirectiveName, k) < 0 && k in m ==> k in RegisterTitles(m, ds) && RegisterTitles(m, ds)[k] == m[k]
  {
    if ds != [] && ds[|ds| - 1].name != k {
      RegisterTitlesLastWins(m, ds[..|ds| - 1], k);
    }
  }

  /** The error `open` raises when the bootstrap literal is not found. */
  function NoAppIdMessage(className: string): string
  {
    "Neviem najst appId v odpovedi vo faze inicializacie aplikacie " + className + "!"
  }

  datatype OpenError = NoAppId(message: string) | ExecuteFailed(message: string)

  /** The query `open` sends: the class name and `fajr=A`, overridden by the caller's own. */
  function InitParams(className: string, extra: map<string, string>): map<string, string>
  {
    UpdatedWith(map["appClassName" := className, "fajr" := "A"], extra)
  }

  /** The titles of registered dialogs, by name. */
  function TitlesOf(forms: map<string, WebUIMainDialog>): (r: map<string, string>)
    ensures r.Keys == forms.Keys
    ensures forall n :: n in forms ==> r[n] == forms[n].title
  {
    map n | n in forms :: forms[n].title
  }

  /** Registering a dialog under a name sets that name's title and leaves the others. */
  lemma {:induction false} TitlesOfUpdate(forms: map<string, WebUIMainDialog>, n: string, form: WebUIMainDialog)
    ensures TitlesOf(forms[n := form]) == TitlesOf(forms)[n := form.title]
  {
  }

  class WebUIApplication {
    const id: nat
    const properties: WebUIProperties<string>
    /** Every event fired so far, in firing order; nothing removes one. */
    var events: seq<Event>
    /** The value `next(self._serial)` gives next. */
    var serial: nat
    var forms: map<string, WebUIMainDialog>
    var closed: bool
    var activeDialog: WebUIMainDialog?

    ghost predicate Valid()
      reads this, properties
    {
      && properties.name == "app" && properties.Valid()
      && forall n :: n in forms ==> forms[n].name == n && forms[n].app == this
    }

    /** The titles of the registered dialogs, by name. */
    function Titles(): map<string, string>
      reads this
    {
      TitlesOf(forms)
    }

    /** A new application has queued exactly the INIT event. */
    constructor (id: nat)
      ensures Valid() && fresh(properties)
      ensures this.id == id && events == [InitEvent] && serial == 0
      ensures forms == map[] && !closed && activeDialog == null
      ensures properties.current == map[] && properties.changed == map[]
    {
      this.id := id;
      events := [InitEvent];
      serial := 0;
      forms := map[];
      closed := false;
      properties := new WebUIProperties("app", map[]);
      activeDialog := null;
    }

    /** `fire_event`: queue the event. */
    method FireEvent(ev: Event)
      modifies this`events
      ensures events == old(events) + [ev]
    {
      events := events + [ev];
    }

    /** The `active_dialog` setter: also records the dialog's name in the `app` properties. */
    method SetActiveDialog(dialog: WebUIMainDialog)
      requires Valid()
      modifies this`activeDialog, properties
      ensures Valid()
      ensures activeDialog == dialog
      ensures properties.current == old(properties.current)["activeDlgName" := dialog.name]
      ensures properties.changed == old(properties.changed)["activeDlgName" := dialog.name]
    {
      activeDialog := dialog;
      properties.Set("activeDlgName", dialog.name);
    }

    /** `close`: only queues the kill event. */
    method Close()
      modifies this`events
      ensures events == old(events) + [KillEvent]
    {
      FireEvent(KillEvent);
    }

    /**
     * `execute`, given the text of the response's first `script` element.
     * The request is built from the next serial and every queued event; the
     * serial is used up whatever happens next. A close call sets `closed`
     * before the error check. An error message box fails the call and
     * registers nothing. Otherwise every dialog call, in script order, stores
     * a new dialog under its name, and the first one becomes the active
     * dialog if there was none.
     */
    method Execute(script: string) returns (request: Element, outcome: Result<(), string>)
      requires Valid()
      modifies this, properties
      ensures Valid()
      ensures request == RequestXml(old(serial), old(events))
      ensures serial == old(serial) + 1 && events == old(events)
      ensures closed == (old(closed) || CloseRequested(script))
      ensures outcome.Err? <==> FindMessageBox(script).Some?
      ensures outcome.Err? ==> outcome.error == FindMessageBox(script).value
      ensures outcome.Err? ==>
        && forms == old(forms) && activeDialog == old(activeDialog)
        && properties.current == old(properties.current) && properties.changed == old(properties.changed)
      ensures outcome.Ok? ==>
        var ds := FindDialogs(script);
        && Titles() == RegisterTitles(old(Titles()), ds)
        && (forall n :: n in DirectiveNames(ds) ==> n in forms && fresh(forms[n]) && forms[n].components == [])
        && (forall n :: n in old(forms) && n !in DirectiveNames(ds) ==> n in forms && forms[n] == old(forms)[n])
        && (if old(activeDialog) == null && ds != [] then
              && activeDialog != null && fresh(activeDialog)
              && activeDialog.name == ds[0].name && activeDialog.title == ds[0].title
              && (forall n :: n in forms ==> (forms[n] == activeDialog <==> n == ds[0].name && FirstKept(ds)))
              && properties.current == old(properties.current)["activeDlgName" := ds[0].name]
              && properties.changed == old(properties.changed)["activeDlgName" := ds[0].name]
            else
              && activeDialog == old(activeDialog)
              && properties.current == old(properties.current)
              && properties.changed == old(properties.changed))
    {
      request := RequestXml(serial, events);
      serial := serial + 1;
      outcome := Respond(script);
    }

    /** What `execute` does with the response script once the request is sent. */
    method Respond(script: string) returns (outcome: Result<(), string>)
      requires Valid()
      modifies this`closed, this`forms, this`activeDialog, properties
      ensures Valid()
      ensures closed == (old(closed) || CloseRequested(script))
      ensures outcome.Err? <==> FindMessageBox(script).Some?
      ensures outcome.Err? ==> outcome.error == FindMessageBox(script).value
      ensures outcome.Err? ==>
        && forms == old(forms) && activeDialog == old(activeDialog)
        && properties.current == old(properties.current) && properties.changed == old(properties.changed)
      ensures outcome.Ok? ==>
        var ds := FindDialogs(script);
        && Titles() == RegisterTitles(old(Titles()), ds)
        && (forall n :: n in DirectiveNames(ds) ==> n in forms && fresh(forms[n]) && forms[n].components == [])
        && (forall n :: n in old(forms) && n !in DirectiveNames(ds) ==> n in forms && forms[n] == old(forms)[n])
        && (if old(activeDialog) == null && ds != [] then
              && activeDialog != null && fresh(activeDialog)
              && activeDialog.name == ds[0].name && activeDialog.title == ds[0].title
              && (forall n :: n in forms ==> (forms[n] == activeDialog <==> n == ds[0].name && FirstKept(ds)))
              && properties.current == old(properties.current)["activeDlgName" := ds[0].name]
              && properties.changed == old(properties.changed)["activeDlgName" := ds[0].name]
            else
              && activeDialog == old(activeDialog)
              && properties.current == old(properties.current)
              && properties.changed == old(properties.changed))
    {
      if CloseRequested(script) {
        closed := true;
      }
      var error := FindMessageBox(script);
      if error.Some? {
        return Err(error.value);
      }
      outcome := Ok(());
      RegisterDialogs(FindDialogs(script));
    }

    /** One matched dialog call: a new dialog under its name, active if none was. */
    method RegisterDialog(d: DialogDirective) returns (form: WebUIMainDialog)
      requires Valid()
      modifies this`forms, this`activeDialog, properties
      ensures Valid() && fresh(form)
      ensures form.name == d.name && form.title == d.title && form.components == []
      ensures forms == old(forms)[d.name := form]
      ensures if old(activeDialog) == null then
          && activeDialog == form
          && properties.current == old(properties.current)["activeDlgName" := d.name]
          && properties.changed == old(properties.changed)["activeDlgName" := d.name]
        else
          && activeDialog == old(activeDialog)
          && properties.current == old(properties.current)
          && properties.changed == old(properties.changed)
    {
      form := new WebUIMainDialog(this, d.name, d.title);
      forms := forms[form.name := form];
      if activeDialog == null {
        SetActiveDialog(form);
      }
    }

    /** The `finditer` loop of `execute`, over the dialog calls already matched. */
    method RegisterDialogs(ds: seq<DialogDirective>)
      requires Valid()
      modifies this`forms, this`activeDialog, properties
      ensures Valid()
      ensures Titles() == RegisterTitles(old(Titles()), ds)
      ensures forall n :: n in DirectiveNames(ds) ==> n in forms && fresh(forms[n]) && forms[n].components == []
      ensures forall n :: n in old(forms) && n !in DirectiveNames(ds) ==> n in forms && forms[n] == old(forms)[n]
      ensures if old(activeDialog) == null && ds != [] then
          && activeDialog != null && fresh(activeDialog)
          && activeDialog.name == ds[0].name && activeDialog.title == ds[0].title
          && properties.current == old(properties.current)["activeDlgName" := ds[0].name]
          && properties.changed == old(properties.changed)["activeDlgName" := ds[0].name]
        else
          && activeDialog == old(activeDialog)
          && properties.current == old(properties.current)
          && properties.changed == old(properties.changed)
      ensures old(activeDialog) == null && ds != [] ==>
        forall n :: n in forms ==> (forms[n] == activeDialog <==> n == ds[0].name && FirstKept(ds))
    {
      for i := 0 to |ds|
        invariant Valid()
        invariant Titles() == RegisterTitles(old(Titles()), ds[..i])
        invariant forall n :: n in DirectiveNames(ds[..i]) ==> n in forms && fresh(forms[n]) && forms[n].components == []
        invariant forall n :: n in old(forms) && n !in DirectiveNames(ds[..i]) ==> n in forms && forms[n] == old(forms)[n]
        invariant old(activeDialog) == null && i > 0 ==>
          && activeDialog != null && fresh(activeDialog)
          && activeDialog.name == ds[0].name && activeDialog.title == ds[0].title
          && properties.current == old(properties.current)["activeDlgName" := ds[0].name]
          && properties.changed == old(properties.changed)["activeDlgName" := ds[0].name]
        invariant old(activeDialog) != null || i == 0 ==>
          && activeDialog == old(activeDialog)
          && properties.current == old(properties.current)
          && properties.changed == old(properties.changed)
        invariant old(activeDialog) == null && i > 0 ==>
          forall n :: n in forms ==> (forms[n] == activeDialog <==> n == ds[0].name && FirstKept(ds[..i]))
      {
        ghost var before := forms;
        var form := RegisterDialog(ds[i]);
        TitlesOfUpdate(before, ds[i].name, form);
        RegisterTitlesStep(old(Titles()), ds, i);
        FirstKeptStep(ds, i);
      }
      assert ds[..|ds|] == ds;
    }

    /** The end of `open`: a new application under the id, executed once; its error propagates. */
    static method Launch(id: nat, script: string) returns (r: Result<WebUIApplication, string>)
      ensures r.Err? <==> FindMessageBox(script).Some?
      ensures r.Err? ==> r.error == FindMessageBox(script).value
      ensures r.Ok? ==>
        && fresh(r.value) && r.value.Valid() && r.value.id == id
        && r.value.events == [InitEvent] && r.value.serial == 1
        && r.value.closed == CloseRequested(script)
        && r.value.Titles() == RegisterTitles(map[], FindDialogs(script))
        && fresh(r.value.properties)
        && r.value.forms.Keys == DirectiveNames(FindDialogs(script))
        && (forall n :: n in r.value.forms ==> fresh(r.value.forms[n]) && r.value.forms[n].components == [])
        && (var ds := FindDialogs(script);
            if ds != [] then
              && r.value.activeDialog != null && fresh(r.value.activeDialog)
              && r.value.activeDialog.name == ds[0].name && r.value.activeDialog.title == ds[0].title
              && (forall n :: n in r.value.forms ==>
                    (r.value.forms[n] == r.value.activeDialog <==> n == ds[0].name && FirstKept(ds)))
              && r.value.properties.current == map["activeDlgName" := ds[0].name]
              && r.value.properties.changed == map["activeDlgName" := ds[0].name]
            else
              && r.value.activeDialog == null
              && r.value.properties.current == map[] && r.value.properties.changed == map[])
    {
      var app := new WebUIApplication(id);
      assert app.Titles() == map[];
      var _, outcome := app.Execute(script);
      if outcome.Err? {
        return Err(outcome.error);
      }
      RegisterTitlesKeys(map[], FindDialogs(script));
      r := Ok(app);
    }

    /**
     * The class method `open`, given the `onload` attribute of the first
     * response's body and the script of the first `execute`: the application
     * id is read from the bootstrap literal, then the new application is
     * executed exactly once.
     */
    static method Open(className: string, extra: map<string, string>, onload: string, script: string)
      returns (params: map<string, string>, r: Result<WebUIApplication, OpenError>)
      ensures params == InitParams(className, extra)
      ensures ParseAppId(onload).None? <==> r == Err(NoAppId(NoAppIdMessage(className)))
      ensures r.Err? && r.error.ExecuteFailed? <==> ParseAppId(onload).Some? && FindMessageBox(script).Some?
      ensures r.Err? && r.error.ExecuteFailed? ==> r.error.message == FindMessageBox(script).value
      ensures r.Ok? ==>
        && fresh(r.value) && r.value.Valid() && r.value.id == ParseAppId(onload).value
        && r.value.events == [InitEvent] && r.value.serial == 1
        && r.value.closed == CloseRequested(script)
        && r.value.Titles() == RegisterTitles(map[], FindDialogs(script))
        && fresh(r.value.properties)
        && r.value.forms.Keys == DirectiveNames(FindDialogs(script))
        && (forall n :: n in r.value.forms ==> fresh(r.value.forms[n]) && r.value.forms[n].components == [])
        && (var ds := FindDialogs(script);
            if ds != [] then
              && r.value.activeDialog != null && fresh(r.value.activeDialog)
              && r.value.activeDialog.name == ds[0].name && r.value.activeDialog.title == ds[0].title
              && (forall n :: n in r.value.forms ==>
                    (r.value.forms[n] == r.value.activeDialog <==> n == ds[0].name && FirstKept(ds)))
              && r.value.properties.current == map["activeDlgName" := ds[0].name]
              && r.value.properties.changed == map["activeDlgName" := ds[0].name]
            else
              && r.value.activeDialog == null
              && r.value.properties.current == map[] && r.value.properties.changed == map[])
    {
      params := InitParams(className, extra);
      var id := ParseAppId(onload);
      if id.None? {
        return params, Err(NoAppId(NoAppIdMessage(className)));
      }
      var launched := Launch(id.value, script);
      if launched.Err? {
        return params, Err(ExecuteFailed(launched.error));
      }
      r := Ok(launched.value);
    }
  }
}
