# fajr-python core, modelled in Dafny

fajr-python is a client library for the AiS2 student information system. It
logs in with a cosign cookie, reads the server version and drives WebUI
applications. A WebUI application is a server-side state machine: the client
queues events and posts them as an XML request. The server answers with a
script, and the client scans that script for three directives: close the
application, show an error message box, and open a main dialog. Dialog pages
are turned into a tree of components keyed by their `jsct` attribute.

This project models three pieces of that library:

- **WebUI** (`webui.dfy`, `components.dfy`, `directives.dfy`):
  - the event queue and the request element built from it;
  - the dirty-tracked property bag;
  - main dialogs and how they build their component lists;
  - the application's `execute`/`open`/`close` state machine;
  - the script directives and the `onload` bootstrap literal, as string matchers.
- **Session helpers** (`session.dfy`): the URL table, cosign-cookie validation, and the version parser with its cache.
- **ElementBuilder** (`markup.dfy`): content accumulation with typed coercion, and element assembly in which text runs become the element's text or the previous child's tail.

Shared modules: `wrappers.dfy` holds Option, Result, KeyError and `dict.update`. `decimal.dfy` holds `str`/`int` on natural numbers and digit runs.

Modelling choices:

- Objects whose fields the source updates are classes: `ElementBuilder`, `WebUIProperties`, `WebUIMainDialog`, `WebUIApplication` and `WebUISession`. Each method states its whole new state.
- Built components, elements and events are immutable values. The source never changes a component after building it.
- The patterns are modelled as follows:
  - The dialog, message-box and number patterns are matchers that return what they matched and what follows the match. Each has a printer, and round-trip lemmas prove that the two are inverses.
  - The `onload` and version patterns return only the numbers. Lemmas state, in both directions, which texts they accept.
  - The close search and the cookie patterns are predicates. `SplitValue` returns the cookie value's first group.
  - The searches (`re.search`, `re.finditer`) try every start position from the left.
  - Python's `.` excludes a newline, and `$` accepts one final newline.
- HTTP responses are inputs: a script text, an `onload` string, a version string, or a parsed node tree.
- The model follows the code:
  - The component name index is flattened one level only. A container child's direct children are indexed, not its whole subtree.
  - The error raised for a message box is a plain `Exception` carrying the message.

## Model

| member | source | states |
|---|---|---|
| Wrappers.UpdatedWith | libfajr/webui/__init__.py:240-242 | the keys are the union; every overriding key takes the caller's value; the other keys keep the defaults |
| Decimal.NatToString | libfajr/webui/__init__.py:211 | `str(n)` is a non-empty run of digits with no leading zero |
| Decimal.ValueOfNatToString | libfajr/webui/__init__.py:211 | `int(str(n)) == n` |
| Decimal.TakeNumber | libfajr/webui/__init__.py:250 | a greedy digit group converted with `int`: present iff the text starts with a digit; the value of the longest digit prefix; the rest does not start with a digit |
| Decimal.NumberRoundTrip | libfajr/webui/__init__.py:211 | a printed number reads back as itself, stopping where it ends |
| Decimal.DigitsThen | libfajr/webui/__init__.py:250 | any non-empty digit run, leading zeros included, followed by a non-digit or the end, reads as `int` of that run and stops there |
| Decimal.TakeNumberParts | libfajr/webui/__init__.py:250 | a number read splits the text into its digit run, whose value it is, and what follows |
| Decimal.DigitRun | libfajr/session/__init__.py:90 | the greedy `[0-9]*` run: all digits, followed by a non-digit or the end |
| Markup.MergeAttributes | libfajr/markup/__init__.py:7-12 | keys of both dicts; keyword attributes win a clash; positional ones are kept otherwise; no dict means only the keyword ones |
| Markup.ElementBuilder.constructor | libfajr/markup/__init__.py:7-13 | tag and merged attributes stored, content empty |
| Markup.ElementBuilder.CreateElement | libfajr/markup/__init__.py:15-27 | the loop builds exactly `Assemble(tag, attributes, content)`: leading text runs joined into `text`, each later run joined onto the previous child's tail, children in order |
| Markup.ElementBuilder.Append | libfajr/markup/__init__.py:29-43 | content grows by the coerced items before the first bad one; `None` adds nothing; a nested builder adds its built element; the result is the builder itself, or the index of the first bad item |
| Markup.ElementBuilder.AppendItem | libfajr/markup/__init__.py:30-40 | one accepted item extends the content by its coercion, keeping the content equal to the start plus the coerced prefix |
| Markup.ElementBuilder.Coerce | libfajr/markup/__init__.py:31-40 | one accepted item as content: `None` adds nothing, `str` and `unicode` add text, a builder adds its built element, an element adds itself |
| Markup.ElementBuilder.Call | libfajr/markup/__init__.py:45-46 | calling the builder is `append`, with the same effect and result |
| Markup.FirstBad | libfajr/markup/__init__.py:30-42 | the index of the first item that is not None/str/unicode/builder/element, or the length when there is none |
| Markup.JoinAssoc | libfajr/markup/__init__.py:20-22 | joining text runs one at a time is associative, so `(t or '') + s` accumulates the concatenation |
| Markup.TextStep | libfajr/markup/__init__.py:18-22 | one more text item extends the element's text when there is no child yet, otherwise the last child's tail |
| Markup.ElementStep | libfajr/markup/__init__.py:23-24 | one more element item is appended as the last child and leaves the text alone |
| Markup.TextAndTailsKeepAllText | libfajr/markup/__init__.py:15-27 | the text followed by all children's tails is exactly all text items in order |
| Markup.ChildrenKeepAppendOrder | libfajr/markup/__init__.py:17-24 | the children are the element items in append order, differing only in their tails |
| Markup.AssembleKeepsContent | libfajr/markup/__init__.py:15-27 | the assembled element keeps tag and attributes and has no tail; its text and its children's tails are all text items in order; its children are the element items, as many and in order up to tails |
| Markup.ElementsOnly | libfajr/markup/__init__.py:15-27 | content made only of elements gives no text and the elements unchanged as children |
| Markup.HeadTailExample | libfajr/markup/tests.py:5-10 | the content the test's items coerce to (`'he','ad',<other>,'ta','il',<ya>`) assembles into text "head", `other` with tail "tail", then `ya` |
| Markup.HeadTailCoerced | libfajr/markup/__init__.py:30-40 | `append` turns the test's items into that content: the `None` adds nothing, and each empty builder adds its bare element |
| Markup.HeadTailBuilt | libfajr/markup/tests.py:5-10 | the whole test through `append` and `create_element`: `E('tag', attribute=u'value')(u'he', u'ad', E('other'), u'ta', None, u'il', E('ya')())` builds `<tag attribute="value">head<other/>tail<ya/></tag>` |
| Session.Resolve | libfajr/session/__init__.py:46-69 | an unknown name is a KeyError; with no params the URL is exactly `protocol://host/path`; otherwise that base, `?`, then the encoded params |
| Session.LoginAndMainUrls | libfajr/session/__init__.py:50-58 | `login` resolves to `https://h/ais/login.do` and `main` to `https://h/` |
| Session.FirstSlash | libfajr/session/__init__.py:14 | the position of the first `/`, or none when there is no `/` |
| Session.SplitValue | libfajr/session/__init__.py:14-17 | a result is a non-empty prefix of value characters that the value continues with `/`, then digits up to the end or one final newline: a match of `^([A-Za-z0-9 +.@-]+)(/\d+)$` whose first group it is |
| Session.SpacesToPlus | libfajr/session/__init__.py:17 | same length; spaces become `+`; other characters are kept |
| Session.CreateCosignCookie | libfajr/session/__init__.py:10-22 | each error iff its pattern fails, checked in source order (name, value, domain); on success name and domain are kept and the stored value is non-empty with no space and no `/` |
| Session.SplitValueAccepts | libfajr/session/__init__.py:14-17 | `p/digits`, with one optional final newline, is accepted and split at the slash |
| Session.CookieAccepted | libfajr/session/__init__.py:10-22 | a well-formed name, value (optionally ending in the one newline `$` admits) and domain give the cookie whose value is the part before `/` with spaces as `+` |
| Session.ParseVersion | libfajr/session/__init__.py:89-93 | success means the text starts with `AiS2 verzia 2.` and the major number is 2; failure carries the text |
| Session.DotNumberOf | libfajr/session/__init__.py:90 | `.` followed by any non-empty digit run and a non-digit or the end reads as that run's value |
| Session.VersionNumbersOf | libfajr/session/__init__.py:90 | three digit runs joined by `.` and followed by a non-digit or the end read as their three values |
| Session.VersionNumbersSound | libfajr/session/__init__.py:90 | numbers read mean the text starts with three digit runs joined by `.`, with those values |
| Session.VersionNumbersIff | libfajr/session/__init__.py:90 | `([0-9]+)\.([0-9]+)\.([0-9]+)` yields (x, y, z) iff the text starts with three digit runs joined by `.` whose values are x, y and z |
| Session.ParseVersionIff | libfajr/session/__init__.py:89-93 | the version is `(2, x, y, z)` iff the text starts with `AiS2 verzia 2.` and then three digit runs joined by `.`, each taken whole, with values x, y and z; so `AiS2 verzia 2.5` and other partial versions fail |
| Session.DotNumberRoundTrip | libfajr/session/__init__.py:90 | `.` followed by a printed number reads back as that number |
| Session.ParseAfterPrefix | libfajr/session/__init__.py:90-93 | the parse after the fixed prefix is the three dot-separated numbers |
| Session.NumbersRoundTrip | libfajr/session/__init__.py:90 | three printed dot-separated numbers read back, whatever non-digit text follows |
| Session.VersionRoundTrip | libfajr/session/__init__.py:89-93 | `AiS2 verzia 2.x.y.z` followed by any non-digit text parses to `(2, x, y, z)` |
| Session.WebUISession.constructor | libfajr/session/__init__.py:73-78 | the resolver is bound to host and protocol; nothing is cached |
| Session.WebUISession.GetVersion | libfajr/session/__init__.py:86-99 | loads and parses only while nothing is cached, caching a successful result; later reads return the cache without loading |
| Directives.Lit | libfajr/webui/__init__.py:222 | a literal matches iff the text starts with it; the rest is what follows |
| Directives.AnyChar | libfajr/webui/__init__.py:222 | Python's `.`: any one character except a newline |
| Directives.Quoted | libfajr/webui/__init__.py:224 | `([^"]+)"`: a non-empty quote-free group, then the closing quote |
| Directives.CloseRequested | libfajr/webui/__init__.py:222 | the close search succeeds iff the close call starts at some position |
| Directives.CloseCallFound | libfajr/webui/__init__.py:222 | a close call anywhere in the script, with any character but a newline as the dot, is found |
| Directives.MessageBoxAt | libfajr/webui/__init__.py:224 | a match is exactly a printed error call: the dot is not a newline; the message is non-empty and quote-free |
| Directives.MessageBoxRoundTrip | libfajr/webui/__init__.py:224 | a printed error call is matched, giving back its message and what follows |
| Directives.FindMessageBox | libfajr/webui/__init__.py:224-226 | a message found is non-empty and holds no quote |
| Directives.FindMessageBoxNone | libfajr/webui/__init__.py:224-226 | no error iff no position starts an error call |
| Directives.FindMessageBoxIsLeftmost | libfajr/webui/__init__.py:224-226 | a message found is that of the leftmost position where an error call starts |
| Directives.ErrorExample | libfajr/webui/__init__.py:224-226 | the script `webui().messageBox("Nepodarilo sa.","Chyba","","");` yields the message "Nepodarilo sa." |
| Directives.NumeralAt | libfajr/webui/__init__.py:227 | a match of `-?\d+,` is a printed numeral with a non-empty digit run |
| Directives.NumeralsAt | libfajr/webui/__init__.py:227 | `(?:-?\d+,){k}` gives exactly k well-formed numerals, and the text is their printout plus the rest |
| Directives.FlagAt | libfajr/webui/__init__.py:228 | `true` or `false`, and the rest after it |
| Directives.FlagsAt | libfajr/webui/__init__.py:228 | k flags separated by `,` and closed by `);`, and the text is their printout plus the rest |
| Directives.HeaderAt | libfajr/webui/__init__.py:227 | the three quoted groups are non-empty and quote-free; the dot is not a newline; the text is the printed header plus the rest |
| Directives.DialogAt | libfajr/webui/__init__.py:227-228 | a match is exactly a printed well-formed dialog call, followed by a strictly shorter rest |
| Directives.FindDialogs | libfajr/webui/__init__.py:227-229 | every `finditer` match is a well-formed dialog call (six numbers, four flags, non-empty groups) |
| Directives.NumeralRoundTrip | libfajr/webui/__init__.py:227 | a printed numeral reads back as itself |
| Directives.NumeralsRoundTrip | libfajr/webui/__init__.py:227 | printed numerals read back as themselves, in order |
| Directives.FlagsRoundTrip | libfajr/webui/__init__.py:228 | printed flags read back as themselves, in order |
| Directives.HeaderRoundTrip | libfajr/webui/__init__.py:227 | a printed header reads back as its dot, name, title and body type |
| Directives.DialogRoundTrip | libfajr/webui/__init__.py:227-228 | a printed well-formed dialog call is matched as itself, and the match stops where it ends |
| Directives.FindDialogsAfter | libfajr/webui/__init__.py:227-229 | a call at the front is the first match, and the scan resumes right after it |
| Directives.FindDialogsSkips | libfajr/webui/__init__.py:227-229 | script text at none of whose positions a call starts is passed over: the calls found are those after it |
| Directives.FindDialogsLeftmost | libfajr/webui/__init__.py:227-229 | the first call found starts at the leftmost position where any call starts, and the other calls are those found after it |
| Directives.FindDialogsBetween | libfajr/webui/__init__.py:227-229 | a call preceded by text in which no call starts is found first, and the scan resumes right after it |
| Directives.FindDialogsRoundTrip | libfajr/webui/__init__.py:227-229 | a script of printed calls yields exactly those calls, in script order |
| Directives.DialogExample | libfajr/webui/__init__.py:227-230 | the script `dm().openMainDialog("F1","Hlavné okno","body",0,0,0,0,0,0,true,false,true,false);` yields one dialog, "F1", titled "Hlavné okno" |
| Directives.NumberBetween | libfajr/webui/__init__.py:247-250 | a result means the text is the literal, a non-empty digit run, the closing literal and a rest, and the result is `int` of those digits |
| Directives.NumberBetweenOf | libfajr/webui/__init__.py:247-250 | a literal, any non-empty digit run (leading zeros included) and a closing literal that does not start with a digit are always found, giving the run's value |
| Directives.ParseAppId | libfajr/webui/__init__.py:247-250 | an id found means the text starts with the bootstrap literal around a non-empty digit run, and the id is `int` of those digits |
| Directives.ParseAppIdIff | libfajr/webui/__init__.py:247-250 | the id is v iff the text starts with the whole bootstrap literal around a digit run whose value is v; otherwise no id, which `open` turns into its ValueError |
| Directives.AppIdRoundTrip | libfajr/webui/__init__.py:247-250 | the id written into the bootstrap literal is the id read back, whatever follows |
| Components.FromElement | libfajr/webui/__init__.py:74-76 | a component exists only if the node has an `id`; its name is the `id` and its type is the `jsct`; it is a container iff the class table says so |
| Components.Walk | libfajr/webui/__init__.py:85-98 | walking only appends to the component list; a stopped walk changes nothing more |
| Components.Visit | libfajr/webui/__init__.py:87-97 | visiting one node only appends to the component list |
| Components.Frontier | libfajr/webui/__init__.py:87-97 | every node it lists carries `jsct` |
| Components.WalkIsFrontier | libfajr/webui/__init__.py:85-98 | the walk builds and registers exactly the `jsct` nodes reached through nodes without `jsct`, in document order |
| Components.RegisterAllAppend | libfajr/webui/__init__.py:86-97 | registering two runs of nodes is registering the first and then the second |
| Components.RegisterAllOk | libfajr/webui/__init__.py:85-98 | the walk succeeds iff a component is built from every frontier node: it has an `id` and, for a container, its own nested walk succeeds |
| Components.RegisterAllResult | libfajr/webui/__init__.py:85-98 | a successful walk appends exactly the frontier's components, in order, after the existing ones |
| Components.ContainerFields | libfajr/webui/__init__.py:104-107 | a container is built iff the node has an `id` and a fresh walk of its children meets no KeyError, and its list and index are that walk's; any other class is built iff the node has an `id` |
| Components.LeafIgnoresDescendants | libfajr/webui/__init__.py:74-76 | a non-container component does not depend on the nodes below it |
| Components.ClassTable | libfajr/webui/__init__.py:147-160 | `popupMenu`, `panel`, `tabbedPane` and every unlisted `jsct` build containers; only `label` builds a label; only `textField` builds a text field |
| Components.LabelFields | libfajr/webui/__init__.py:122-127 | a label's value is the node text or ""; `name_for` is present iff the node has `for`, and then it is that attribute |
| Components.TextFieldFields | libfajr/webui/__init__.py:140-145 | a text field is read-only iff `_readonly` is exactly "true"; its value is the `value` attribute, or "" when that is missing |
| Components.Take | libfajr/webui/__init__.py:89-95 | a built component is appended and is the entry under its name; a KeyError stops the walk and leaves list and index as they were |
| Components.Register | libfajr/webui/__init__.py:91-95 | the list grows by exactly the component, and the component is the entry under its own name |
| Components.IndexKeys | libfajr/webui/__init__.py:92-93 | indexing components adds exactly their names as keys |
| Components.IndexLastWins | libfajr/webui/__init__.py:92-93 | the entry under a name is the last component of that name; a key no component is written under keeps its value |
| Components.RegisterIndex | libfajr/webui/__init__.py:91-95 | a registered component adds its container children's names and its own name; its own entry wins; other entries are unchanged; the list grows by it |
| WebUI.TextElement | libfajr/webui/__init__.py:18-21 | `E(tag)(text)` is an element with that tag and text, and no attributes, children or tail |
| WebUI.AssembleElements | libfajr/webui/__init__.py:17-22 | building from elements only gives no text and those elements as children |
| WebUI.EventXmlShape | libfajr/webui/__init__.py:15-22 | `dlgName` iff the event has a dialog; `compName` iff it has a component; then one `event` element whose `class` is the class name, with one child per field in order |
| WebUI.RequestShape | libfajr/webui/__init__.py:209-213 | the request holds the serial as text that reads back as the serial, then one `ev` per queued event, in order |
| WebUI.WebUIProperties.constructor | libfajr/webui/__init__.py:26-32 | the initial map goes into both current and changed |
| WebUI.WebUIProperties.Set | libfajr/webui/__init__.py:40-42 | the value is written to both maps; every changed key stays current with an equal value |
| WebUI.WebUIProperties.FlushChanges | libfajr/webui/__init__.py:53-56 | returns the changed map, empties it, and leaves current as it was |
| WebUI.WebUIProperties.GetItem | libfajr/webui/__init__.py:37-38 | a KeyError iff the key is missing; otherwise the current value |
| WebUI.WebUIProperties.Contains | libfajr/webui/__init__.py:44-45 | `in` holds exactly for the keys `__getitem__` finds |
| WebUI.WebUIProperties.Keys | libfajr/webui/__init__.py:47-48 | iteration gives exactly the keys the bag contains |
| WebUI.WebUIProperties.Length | libfajr/webui/__init__.py:34-35 | `len` is the number of keys iterated over, and zero exactly when the bag is empty |
| WebUI.WebUIProperties.Get | libfajr/webui/__init__.py:50-51 | the current value, or the default for a missing key |
| WebUI.WebUIMainDialog.constructor | libfajr/webui/__init__.py:164-167 | a dialog of its application, with name and title and no components |
| WebUI.WebUIMainDialog.BuildComponents | libfajr/webui/__init__.py:85-98 | the list and the index become the walk of the root's children from their current contents; the existing list stays as its prefix, so a rebuild appends |
| WebUI.WebUIMainDialog.Open | libfajr/webui/__init__.py:169-173 | builds from the fetched body node into the existing list and index, without clearing |
| WebUI.WebUIMainDialog.WalkInto | libfajr/webui/__init__.py:86-97 | the loop and its recursion compute exactly the walk, stopping at the first node without an `id` |
| WebUI.WebUIMainDialog.Add | libfajr/webui/__init__.py:91-95 | the container's children are indexed first, then the component itself, then it is appended |
| WebUI.WebUIMainDialog.FireEvent | libfajr/webui/__init__.py:175-177 | the application's queue grows by the event stamped with this dialog |
| WebUI.RegisterTitlesKeys | libfajr/webui/__init__.py:230-231 | each dialog call adds its name, and no other name is added |
| WebUI.RegisterTitlesLastWins | libfajr/webui/__init__.py:230-231 | the title under a name is that of its last dialog call; a name no call carries keeps its title |
| WebUI.WebUIApplication.constructor | libfajr/webui/__init__.py:184-193 | the queue holds exactly the INIT event; serial 0; no forms; not closed; empty `app` properties; no active dialog |
| WebUI.WebUIApplication.FireEvent | libfajr/webui/__init__.py:195-196 | the queue grows by the event |
| WebUI.WebUIApplication.SetActiveDialog | libfajr/webui/__init__.py:202-205 | the dialog becomes active, and `activeDlgName` is set to its name in both property maps |
| WebUI.WebUIApplication.Close | libfajr/webui/__init__.py:235-236 | only appends the kill event with command CLOSE |
| WebUI.WebUIApplication.Execute | libfajr/webui/__init__.py:207-233 | see the list below the table |
| WebUI.WebUIApplication.Respond | libfajr/webui/__init__.py:222-233 | the reaction to a response script: `closed` iff a close call, set before the error check; a failure iff a message box, carrying its message and changing no form, active dialog or property; otherwise the dialogs registered as `RegisterDialogs` states |
| WebUI.WebUIApplication.RegisterDialog | libfajr/webui/__init__.py:230-233 | one fresh dialog with the call's name and title, stored under its name; it becomes active, and `activeDlgName` is set, only when no dialog was active |
| WebUI.WebUIApplication.RegisterDialogs | libfajr/webui/__init__.py:227-233 | a fresh dialog per call in script order, titles by last write; other forms untouched; the first call's dialog becomes active only when none was; that dialog is the form stored under the first call's name, unless a later call of that name replaced it, and then it is stored under no name |
| WebUI.WebUIApplication.Launch | libfajr/webui/__init__.py:251-253 | a fresh application with the id, executed once: it fails iff the script shows a message box, carrying its message; otherwise serial 1, only INIT queued, fresh empty forms under the calls' names with their titles, and the first call's dialog active with `activeDlgName` as its only property (no dialog and no property when there is no call); the active dialog is the form under its name unless a later call of that name replaced it |
| WebUI.WebUIApplication.Open | libfajr/webui/__init__.py:238-253 | see the list below the table |

What `WebUI.WebUIApplication.Execute` states:

- The request carries the previous serial and every queued event.
- The serial advances even when the call fails, and the queue is unchanged.
- `closed` becomes true iff a close call is present, and this happens before the error check.
- The call fails iff a message box is present, carrying its message. A failed call changes no form, active dialog or property.
- Otherwise the dialogs are registered as `RegisterDialogs` states. A dialog made active here is the same object as the form under the first call's name, unless a later call of that name replaced that form; it is then stored under no name.

What `WebUI.WebUIApplication.Open` states:

- The parameters are `appClassName` and `fajr=A`, overridden by the caller's own.
- The call fails with the message naming the class iff the bootstrap literal is not found.
- It fails with the script's message iff the id was found and the first execute fails.
- Otherwise it returns a fresh application with the parsed id. That application has been executed exactly once: its serial is 1, and its queue holds just INIT.
- Its forms are fresh dialogs without components, one per name the script's calls carry, each titled by the last call of that name.
- When the script has a dialog call, the first call's dialog is active and `activeDlgName`, set to its name, is the only property in both maps. Otherwise no dialog is active and both maps are empty.
- The active dialog is the same object as the form under its name, unless a later call of that name replaced that form; it is then stored under no name.

## Left out

- HTTP:
  - the GET and POST requests and the cookie jar;
  - login and logout;
  - the URL and the parameters `execute` posts (`appId`, `xml_spec`);
  - the request in `WebUIMainDialog.open`.
  Responses are inputs instead.
- `parse_html` and `select_html`. A parsed page is an `Element` value given to the model. When a selected node is missing, Python raises an IndexError; that case is not modelled.
- lxml internals:
  - `etree.tostring` and byte-level XML output;
  - element aliasing: moving an element that is appended twice, or doubling tails when `create_element` runs twice.
  Elements are immutable values.
- UTF-8 decoding of `str` items: a `str` item is taken as text, and a decoding error is not modelled.
- `create_element`'s own TypeError for a bad content item: after `append`, content holds only text and elements, so the model has no such item.
- `urllib.urlencode` is a function parameter of `Session.Resolve`. Dict order is not modelled: event fields and query parameters are sequences in a given order.
- `requests.cookies.create_cookie`: the model returns the validated name, value and domain.
- `__str__`, `__unicode__` and `__repr__`, which only format for display.
- `_load_applications` and `applications`, which only raise NotImplementedError.
- `example.py`, the command-line driver.
- `WebUIComponent.fire_event`: components keep no parent pointer. Every parent chain ends at the dialog and forwards the event unchanged, so a component's event is `WebUIMainDialog.FireEvent`.
- Event field values are text. Python's `E(name)(value)` raises a TypeError for a value of any other type while `execute` builds the request, after the serial has already advanced; that failure is not modelled.
- Events are values. Python stamps the dialog onto the same event object the caller holds, and that sharing is not modelled.
- Markup.ElementBuilder.Append: requires that a builder is not appended to itself (`b.append(b)`). Python builds that item from the builder's content as it stands when the item is reached, including items appended earlier in the same call; the model reads every nested builder's content as it was when the call started.
- Components.FromElement: for a nested container whose walk fails, the partial object that Python discards is not modelled. Only the outermost dialog keeps what was added before the KeyError.
