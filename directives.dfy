/**
 * The fixed patterns that WebUIApplication matches in the text of a response's
 * first script element (close, error message box, open main dialog) and in
 * the bootstrap page's `onload` attribute (the application id). Each matcher
 * reads a prefix of its input and returns what follows, so that a printer
 * (`...Call`) and its matcher can be stated as inverses.
 *
 * Python's `.` (the unescaped dot after `webui()` and `dm()`) matches any
 * character except a newline; `re.search` and `re.finditer` try every start
 * position from the left; `re.match` tries only the first.
 */
module Directives {
  import opened Wrappers
  import opened Decimal

  predicate StartsWith(s: string, p: string)
  {
    |p| <= |s| && s[..|p|] == p
  }

  /** A literal at the start of `s`: what follows it. */
  function Lit(s: string, p: string): (r: Option<string>)
    ensures r.Some? <==> StartsWith(s, p)
    ensures r.Some? ==> s == p + r.value
  {
    if StartsWith(s, p) then
      assert s == s[..|p|] + s[|p|..];
      Some(s[|p|..])
    else None
  }

  lemma {:induction false} LitRoundTrip(p: string, rest: string)
    ensures Lit(p + rest, p) == Some(rest)
  {
    assert (p + rest)[..|p|] == p;
    assert (p + rest)[|p|..] == rest;
  }

  /** Python's `.`: one character other than a newline. */
  function AnyChar(s: string): (r: Option<(char, string)>)
    ensures r.Some? ==> r.value.0 != '\n' && s == [r.value.0] + r.value.1
  {
    if |s| > 0 && s[0] != '\n' then
      assert s == [s[0]] + s[1..];
      Some((s[0], s[1..]))
    else None
  }

  predicate QuoteFree(s: string)
  {
    forall i :: 0 <= i < |s| ==> s[i] != '"'
  }

  function QuoteFreeRun(s: string): (n: nat)
    ensures n <= |s| && QuoteFree(s[..n])
    ensures n < |s| ==> s[n] == '"'
  {
    if s == [] || s[0] == '"' then 0
    else
      var n := 1 + QuoteFreeRun(s[1..]);
      assert s[..n] == [s[0]] + s[1..][..n - 1];
      n
  }

  /** `"([^"]+)"` after the opening quote: the group, and what follows the closing quote. */
  function Quoted(s: string): (r: Option<(string, string)>)
    ensures r.Some? ==> |r.value.0| > 0 && QuoteFree(r.value.0) && s == r.value.0 + "\"" + r.value.1
  {
    var n := QuoteFreeRun(s);
    if n == 0 || n == |s| then None
    else
      assert s == s[..n] + "\"" + s[n + 1..];
      Some((s[..n], s[n + 1..]))
  }

  lemma {:induction false} QuoteFreeRunOf(q: string, rest: string)
    requires QuoteFree(q)
    ensures QuoteFreeRun(q + "\"" + rest) == |q|
  {
    if q != [] {
      assert (q + "\"" + rest)[1..] == q[1..] + "\"" + rest;
      QuoteFreeRunOf(q[1..], rest);
    }
  }

  lemma {:induction false} QuotedRoundTrip(q: string, rest: string)
    requires |q| > 0 && QuoteFree(q)
    ensures Quoted(q + "\"" + rest) == Some((q, rest))
  {
    QuoteFreeRunOf(q, rest);
    var s := q + "\"" + rest;
    assert s[..|q|] == q;
    assert s[|q| + 1..] == rest;
  }

  /** A literal lead, then `([^"]+)"`: the group and what follows its closing quote. */
  function QuotedAfter(s: string, lead: string): (r: Option<(string, string)>)
    ensures r.Some? ==> |r.value.0| > 0 && QuoteFree(r.value.0)
    ensures r.Some? ==> s == lead + r.value.0 + "\"" + r.value.1
  {
    match Lit(s, lead)
    case None => None
    case Some(r0) =>
      match Quoted(r0)
      case None => None
      case Some((q, rest)) =>
        assert s == lead + (q + "\"" + rest);
        Some((q, rest))
  }

  lemma {:induction false} QuotedAfterRoundTrip(lead: string, q: string, rest: string)
    requires |q| > 0 && QuoteFree(q)
    ensures QuotedAfter(lead + q + "\"" + rest, lead) == Some((q, rest))
  {
    assert lead + q + "\"" + rest == lead + (q + "\"" + rest);
    LitRoundTrip(lead, q + "\"" + rest);
    QuotedRoundTrip(q, rest);
  }

  // ----- webui().serverCloseApplication(); -----

  function CloseCall(sep: char): string
  {
    "webui()" + [sep] + "serverCloseApplication();"
  }

  /** `webui\(\).serverCloseApplication\(\);` at the start of `s`. */
  predicate CloseCallAt(s: string)
  {
    |s| > 7 && s[..7] == "webui()" && s[7] != '\n' && StartsWith(s[8..], "serverCloseApplication();")
  }

  /**
   * `re.search` of the close call anywhere in the script: it succeeds
   * exactly when the call starts at some position.
   */
  predicate CloseRequested(script: string)
    ensures CloseRequested(script) <==> exists i :: 0 <= i <= |script| && CloseCallAt(script[i..])
  {
    assert script[0..] == script;
    assert forall i :: 1 <= i <= |script| ==> script[1..][i - 1..] == script[i..];
    CloseCallAt(script) || (|script| > 0 && CloseRequested(script[1..]))
  }

  /** Any script that contains the close call, wherever it stands, requests closing. */
  lemma {:induction false} CloseCallFound(before: string, sep: char, after: string)
    requires sep != '\n'
    ensures CloseRequested(before + CloseCall(sep) + after)
  {
    var s := before + CloseCall(sep) + after;
    assert s[|before|..] == "webui()" + [sep] + "serverCloseApplication();" + after;
    assert s[|before|..][..7] == "webui()";
    assert s[|before|..][8..] == "serverCloseApplication();" + after;
    assert StartsWith(s[|before|..][8..], "serverCloseApplication();");
  }

  // ----- webui().messageBox("<msg>","Chyba","",""); -----

  /** The arguments after the message: `,"Chyba","",""` and the closing `);`. */
  const MessageBoxArgs: string := ",\"Chyba\",\"\",\"\");"

  function MessageBoxCall(sep: char, message: string): string
  {
    "webui()" + [sep] + "messageBox(\"" + message + "\"" + MessageBoxArgs
  }

  /** `webui\(\).messageBox\("([^"]+)","Chyba","",""\);` at the start of `s`: the dot's character, the message and what follows. */
  function MessageBoxAt(s: string): (r: Option<(char, string, string)>)
    ensures r.Some? ==> r.value.0 != '\n' && |r.value.1| > 0 && QuoteFree(r.value.1)
    ensures r.Some? ==> s == MessageBoxCall(r.value.0, r.value.1) + r.value.2
  {
    match Lit(s, "webui()")
    case None => None
    case Some(r0) =>
      match AnyChar(r0)
      case None => None
      case Some((sep, r1)) =>
        match QuotedAfter(r1, "messageBox(\"")
        case None => None
        case Some((message, r3)) =>
          match Lit(r3, MessageBoxArgs)
          case None => None
          case Some(r4) =>
            MessageBoxShape(s, r1, r3, r4, sep, message);
            Some((sep, message, r4))
  }

  lemma {:induction false} MessageBoxShape(s: string, r1: string, r3: string, r4: string, sep: char, message: string)
    requires s == "webui()" + ([sep] + r1)
    requires r1 == "messageBox(\"" + message + "\"" + r3
    requires r3 == MessageBoxArgs + r4
    ensures s == MessageBoxCall(sep, message) + r4
  {
  }

  lemma {:induction false} MessageBoxRoundTrip(sep: char, message: string, rest: string)
    requires sep != '\n' && |message| > 0 && QuoteFree(message)
    ensures MessageBoxAt(MessageBoxCall(sep, message) + rest) == Some((sep, message, rest))
  {
    var r3 := MessageBoxArgs + rest;
    var r1 := "messageBox(\"" + message + "\"" + r3;
    var r0 := [sep] + r1;
    assert MessageBoxCall(sep, message) + rest == "webui()" + r0;
    LitRoundTrip("webui()", r0);
    assert AnyChar(r0) == Some((sep, r1));
    QuotedAfterRoundTrip("messageBox(\"", message, r3);
    LitRoundTrip(MessageBoxArgs, rest);
  }

  /** `re.search` for the message box: the message of the leftmost occurrence. */
  function FindMessageBox(script: string): (r: Option<string>)
    ensures r.Some? ==> |r.value| > 0 && QuoteFree(r.value)
  {
    match MessageBoxAt(script)
    case Some((_, message, _)) => Some(message)
    case None => if script == [] then None else FindMessageBox(script[1..])
  }

  /** The search finds nothing exactly when the pattern matches at no position. */
  lemma {:induction false} FindMessageBoxNone(script: string)
    ensures FindMessageBox(script).None? <==> forall i :: 0 <= i <= |script| ==> MessageBoxAt(script[i..]).None?
  {
    assert script[0..] == script;
    if MessageBoxAt(script).None? && script != [] {
      FindMessageBoxNone(script[1..]);
      forall i | 1 <= i <= |script| ensures script[1..][i - 1..] == script[i..] { }
    }
  }

  /** A message found is the one of the first position where the pattern matches. */
  lemma {:induction false} FindMessageBoxIsLeftmost(script: string)
    ensures FindMessageBox(script).Some? ==>
      exists i :: 0 <= i <= |script| &&
        (forall j :: 0 <= j < i ==> MessageBoxAt(script[j..]).None?) &&
        MessageBoxAt(script[i..]).Some? && MessageBoxAt(script[i..]).value.1 == FindMessageBox(script).value
  {
    assert script[0..] == script;
    if MessageBoxAt(script).None? && script != [] && FindMessageBox(script).Some? {
      var tail := script[1..];
      FindMessageBoxIsLeftmost(tail);
      var i :| 0 <= i <= |tail| &&
        (forall j :: 0 <= j < i ==> MessageBoxAt(tail[j..]).None?) &&
        MessageBoxAt(tail[i..]).Some? && MessageBoxAt(tail[i..]).value.1 == FindMessageBox(script).value;
      forall j | 0 <= j < i + 1 ensures MessageBoxAt(script[j..]).None? {
        if j > 0 {
          assert tail[j - 1..] == script[j..];
        }
      }
      assert tail[i..] == script[i + 1..];
    }
  }

  /** The error example: the message box with "Nepodarilo sa." yields that text. */
  lemma {:induction false} ErrorExample()
    ensures FindMessageBox("webui().messageBox(\"Nepodarilo sa.\",\"Chyba\",\"\",\"\");") == Some("Nepodarilo sa.")
  {
    MessageBoxRoundTrip('.', "Nepodarilo sa.", "");
    ErrorExampleText();
  }

  lemma {:induction false} ErrorExampleText()
    ensures MessageBoxCall('.', "Nepodarilo sa.") + "" == "webui().messageBox(\"Nepodarilo sa.\",\"Chyba\",\"\",\"\");"
  {
    var a := "webui()" + ['.'] + "messageBox(\"";
    assert a == "webui().messageBox(\"";
    var b := a + "Nepodarilo sa." + "\"";
    assert b == "webui().messageBox(\"Nepodarilo sa.\"";
    assert b + MessageBoxArgs == "webui().messageBox(\"Nepodarilo sa.\",\"Chyba\",\"\",\"\");";
  }

  // ----- dm().openMainDialog("<name>","<title>","<body>",<6 numbers>,<4 booleans>); -----

  /** One `-?\d+,` layout number, kept as written. */
  datatype Numeral = Numeral(negative: bool, digits: string)

  /** One open-main-dialog call: the dot's character, the three strings, six numbers, four flags. */
  datatype DialogDirective = DialogDirective(
    sep: char, name: string, title: string, bodyType: string,
    layout: seq<Numeral>, flags: seq<bool>)

  predicate NumeralOk(n: Numeral)
  {
    |n.digits| > 0 && AllDigits(n.digits)
  }

  /** What the pattern can match: every group non-empty and free of quotes, six numbers, four flags. */
  predicate WellFormed(d: DialogDirective)
  {
    && d.sep != '\n'
    && |d.name| > 0 && QuoteFree(d.name)
    && |d.title| > 0 && QuoteFree(d.title)
    && |d.bodyType| > 0 && QuoteFree(d.bodyType)
    && |d.layout| == 6 && (forall i :: 0 <= i < 6 ==> NumeralOk(d.layout[i]))
    && |d.flags| == 4
  }

  function NumeralText(n: Numeral): string
  {
    (if n.negative then "-" else "") + n.digits + ","
  }

  function NumeralsText(ns: seq<Numeral>): string
  {
    if ns == [] then "" else NumeralText(ns[0]) + NumeralsText(ns[1..])
  }

  function FlagText(f: bool): string
  {
    if f then "true" else "false"
  }

  /** The flags separated by ',' and closed by ");". */
  function FlagsText(fs: seq<bool>): string
  {
    if fs == [] then "" else FlagText(fs[0]) + if |fs| == 1 then ");" else "," + FlagsText(fs[1..])
  }

  function HeaderText(sep: char, name: string, title: string, bodyType: string): string
  {
    "dm()" + [sep] + "openMainDialog(\"" + name + "\"" + ",\"" + title + "\"" + ",\"" + bodyType + "\"" + ","
  }

  /** The call as the server writes it. */
  function DialogText(d: DialogDirective): string
  {
    HeaderText(d.sep, d.name, d.title, d.bodyType) + NumeralsText(d.layout) + FlagsText(d.flags)
  }

  /** `-?\d+,` at the start of `s`. */
  function NumeralAt(s: string): (r: Option<(Numeral, string)>)
    ensures r.Some? ==> NumeralOk(r.value.0) && s == NumeralText(r.value.0) + r.value.1
  {
    var negative := |s| > 0 && s[0] == '-';
    var t := if negative then s[1..] else s;
    var n := DigitRun(t);
    if n == 0 || n == |t| || t[n] != ',' then None
    else
      assert t == t[..n] + "," + t[n + 1..];
      assert negative ==> s == "-" + t;
      Some((Numeral(negative, t[..n]), t[n + 1..]))
  }

  /** `(?:-?\d+,){k}` at the start of `s`. */
  function NumeralsAt(s: string, k: nat): (r: Option<(seq<Numeral>, string)>)
    ensures r.Some? ==> |r.value.0| == k && (forall i :: 0 <= i < k ==> NumeralOk(r.value.0[i]))
    ensures r.Some? ==> s == NumeralsText(r.value.0) + r.value.1
  {
    if k == 0 then Some(([], s))
    else match NumeralAt(s)
      case None => None
      case Some((n, r1)) =>
        match NumeralsAt(r1, k - 1)
        case None => None
        case Some((ns, r2)) =>
          assert ([n] + ns)[1..] == ns;
          Some(([n] + ns, r2))
  }

  /** `(?:true|false)` at the start of `s`. */
  function FlagAt(s: string): (r: Option<(bool, string)>)
    ensures r.Some? ==> s == FlagText(r.value.0) + r.value.1
  {
    match Lit(s, "true")
    case Some(rest) => Some((true, rest))
    case None =>
      match Lit(s, "false")
      case Some(rest) => Some((false, rest))
      case None => None
  }

  /** `k` flags separated by ',' and closed by `\);`. */
  function FlagsAt(s: string, k: nat): (r: Option<(seq<bool>, string)>)
    requires k > 0
    ensures r.Some? ==> |r.value.0| == k && s == FlagsText(r.value.0) + r.value.1
  {
    match FlagAt(s)
    case None => None
    case Some((f, r1)) =>
      if k == 1 then
        match Lit(r1, ");")
        case None => None
        case Some(r2) => Some(([f], r2))
      else
        match Lit(r1, ",")
        case None => None
        case Some(r2) =>
          match FlagsAt(r2, k - 1)
          case None => None
          case Some((fs, r3)) =>
            FlagsTextCons(f, fs, r3);
            Some(([f] + fs, r3))
  }

  /** `dm\(\).openMainDialog\("([^"]+)","([^"]+)","([^"]+)",` at the start of `s`. */
  function HeaderAt(s: string): (r: Option<(char, string, string, string, string)>)
    ensures r.Some? ==>
      var (sep, name, title, bodyType, rest) := r.value;
      sep != '\n' && |name| > 0 && QuoteFree(name) && |title| > 0 && QuoteFree(title) &&
      |bodyType| > 0 && QuoteFree(bodyType) && s == HeaderText(sep, name, title, bodyType) + rest
  {
    match Lit(s, "dm()")
    case None => None
    case Some(r0) =>
      match AnyChar(r0)
      case None => None
      case Some((sep, r1)) =>
        match QuotedAfter(r1, "openMainDialog(\"")
        case None => None
        case Some((name, r3)) =>
          match QuotedAfter(r3, ",\"")
          case None => None
          case Some((title, r5)) =>
            match QuotedAfter(r5, ",\"")
            case None => None
            case Some((bodyType, r7)) =>
              match Lit(r7, ",")
              case None => None
              case Some(r8) =>
                HeaderShape(s, r1, r3, r5, r7, r8, sep, name, title, bodyType);
                Some((sep, name, title, bodyType, r8))
  }

  lemma {:induction false} HeaderShape(s: string, r1: string, r3: string, r5: string, r7: string, r8: string,
                    sep: char, name: string, title: string, bodyType: string)
    requires s == "dm()" + ([sep] + r1)
    requires r1 == "openMainDialog(\"" + name + "\"" + r3
    requires r3 == ",\"" + title + "\"" + r5
    requires r5 == ",\"" + bodyType + "\"" + r7
    requires r7 == "," + r8
    ensures s == HeaderText(sep, name, title, bodyType) + r8
  {
  }

  /** The open-main-dialog pattern at the start of `s`: the call and what follows it. */
  function DialogAt(s: string): (r: Option<(DialogDirective, string)>)
    ensures r.Some? ==> WellFormed(r.value.0) && s == DialogText(r.value.0) + r.value.1
    ensures r.Some? ==> |r.value.1| < |s|
  {
    match HeaderAt(s)
    case None => None
    case Some((sep, name, title, bodyType, r1)) =>
      match NumeralsAt(r1, 6)
      case None => None
      case Some((layout, r2)) =>
        match FlagsAt(r2, 4)
        case None => None
        case Some((flags, r3)) =>
          var d := DialogDirective(sep, name, title, bodyType, layout, flags);
          DialogShape(s, r1, r2, r3, d);
          Some((d, r3))
  }

  lemma {:induction false} DialogShape(s: string, r1: string, r2: string, r3: string, d: DialogDirective)
    requires s == HeaderText(d.sep, d.name, d.title, d.bodyType) + r1
    requires r1 == NumeralsText(d.layout) + r2
    requires r2 == FlagsText(d.flags) + r3
    ensures s == DialogText(d) + r3
  {
  }

  /** `re.finditer`: every non-overlapping match, left to right, resuming after each one. */
  function FindDialogs(script: string): (r: seq<DialogDirective>)
    ensures forall i :: 0 <= i < |r| ==> WellFormed(r[i])
    decreases |script|
  {
    match DialogAt(script)
    case Some((d, rest)) => [d] + FindDialogs(rest)
    case None => if script == [] then [] else FindDialogs(script[1..])
  }

  /**
   * The first call found is at the leftmost position where a call starts, and
   * the other calls are those found in what follows it.
   */
  lemma {:induction false} FindDialogsLeftmost(script: string)
    decreases |script|
    ensures FindDialogs(script) != [] ==>
      exists i :: 0 <= i <= |script| &&
        (forall j :: 0 <= j < i ==> DialogAt(script[j..]).None?) &&
        DialogAt(script[i..]).Some? && DialogAt(script[i..]).value.0 == FindDialogs(script)[0] &&
        FindDialogs(script)[1..] == FindDialogs(DialogAt(script[i..]).value.1)
  {
    assert script[0..] == script;
    if DialogAt(script).None? && script != [] && FindDialogs(script) != [] {
      var tail := script[1..];
      FindDialogsLeftmost(tail);
      var i :| 0 <= i <= |tail| &&
        (forall j :: 0 <= j < i ==> DialogAt(tail[j..]).None?) &&
        DialogAt(tail[i..]).Some? && DialogAt(tail[i..]).value.0 == FindDialogs(tail)[0] &&
        FindDialogs(tail)[1..] == FindDialogs(DialogAt(tail[i..]).value.1);
      forall j | 0 <= j < i + 1 ensures DialogAt(script[j..]).None? {
        if j > 0 {
          assert tail[j - 1..] == script[j..];
        }
      }
      assert tail[i..] == script[i + 1..];
    } else if DialogAt(script).Some? {
      assert FindDialogs(script)[1..] == FindDialogs(DialogAt(script).value.1);
    }
  }

  // ----- the printer/matcher round trips -----

  lemma {:induction false} NumeralRoundTrip(n: Numeral, rest: string)
    requires NumeralOk(n)
    ensures NumeralAt(NumeralText(n) + rest) == Some((n, rest))
  {
    var s := NumeralText(n) + rest;
    var t := n.digits + ("," + rest);
    DigitRunOfDigitsThen(n.digits, "," + rest);
    assert t[..|n.digits|] == n.digits;
    assert t[|n.digits|] == ',';
    assert t[|n.digits| + 1..] == rest;
    if n.negative {
      assert s == "-" + t;
      assert s[0] == '-' && s[1..] == t;
    } else {
      assert s == t;
      assert s[0] == n.digits[0];
    }
  }

  lemma {:induction false} NumeralsRoundTrip(ns: seq<Numeral>, rest: string)
    requires forall i :: 0 <= i < |ns| ==> NumeralOk(ns[i])
    ensures NumeralsAt(NumeralsText(ns) + rest, |ns|) == Some((ns, rest))
  {
    if ns != [] {
      assert NumeralsText(ns) + rest == NumeralText(ns[0]) + (NumeralsText(ns[1..]) + rest);
      NumeralRoundTrip(ns[0], NumeralsText(ns[1..]) + rest);
      NumeralsRoundTrip(ns[1..], rest);
      assert [ns[0]] + ns[1..] == ns;
    } else {
      assert NumeralsText(ns) + rest == rest;
    }
  }

  lemma {:induction false} FlagRoundTrip(f: bool, rest: string)
    ensures FlagAt(FlagText(f) + rest) == Some((f, rest))
  {
    LitRoundTrip(FlagText(f), rest);
    if !f {
      assert (FlagText(f) + rest)[0] == 'f';
    }
  }

  lemma {:induction false} LastFlagRoundTrip(f: bool, rest: string)
    ensures FlagsAt(FlagsText([f]) + rest, 1) == Some(([f], rest))
  {
    assert FlagsText([f]) + rest == FlagText(f) + (");" + rest);
    FlagRoundTrip(f, ");" + rest);
    LitRoundTrip(");", rest);
  }

  lemma {:induction false} FlagsRoundTrip(fs: seq<bool>, rest: string)
    requires |fs| > 0
    ensures FlagsAt(FlagsText(fs) + rest, |fs|) == Some((fs, rest))
  {
    if |fs| == 1 {
      LastFlagRoundTrip(fs[0], rest);
      assert [fs[0]] == fs;
    } else {
      FlagsRoundTrip(fs[1..], rest);
      FlagsStep(fs[0], fs[1..], rest);
      assert [fs[0]] + fs[1..] == fs;
    }
  }

  lemma {:induction false} FlagsStep(f: bool, fs: seq<bool>, rest: string)
    requires |fs| > 0
    requires FlagsAt(FlagsText(fs) + rest, |fs|) == Some((fs, rest))
    ensures FlagsAt(FlagsText([f] + fs) + rest, |fs| + 1) == Some(([f] + fs, rest))
  {
    var tail := FlagsText(fs) + rest;
    FlagsTextCons(f, fs, rest);
    FlagRoundTrip(f, "," + tail);
    LitRoundTrip(",", tail);
    assert FlagAt(FlagText(f) + ("," + tail)) == Some((f, "," + tail));
  }

  lemma {:induction false} FlagsTextCons(f: bool, fs: seq<bool>, rest: string)
    requires |fs| > 0
    ensures FlagsText([f] + fs) + rest == FlagText(f) + ("," + (FlagsText(fs) + rest))
  {
    assert ([f] + fs)[1..] == fs;
    assert FlagsText([f] + fs) == FlagText(f) + ("," + FlagsText(fs));
  }

  lemma {:induction false} HeaderRoundTrip(sep: char, name: string, title: string, bodyType: string, rest: string)
    requires sep != '\n'
    requires |name| > 0 && QuoteFree(name) && |title| > 0 && QuoteFree(title)
    requires |bodyType| > 0 && QuoteFree(bodyType)
    ensures HeaderAt(HeaderText(sep, name, title, bodyType) + rest) == Some((sep, name, title, bodyType, rest))
  {
    var r7 := "," + rest;
    var r5 := ",\"" + bodyType + "\"" + r7;
    var r3 := ",\"" + title + "\"" + r5;
    var r1 := "openMainDialog(\"" + name + "\"" + r3;
    HeaderTextNested(sep, name, title, bodyType, rest);
    LitRoundTrip("dm()", [sep] + r1);
    assert AnyChar([sep] + r1) == Some((sep, r1));
    QuotedAfterRoundTrip("openMainDialog(\"", name, r3);
    QuotedAfterRoundTrip(",\"", title, r5);
    QuotedAfterRoundTrip(",\"", bodyType, r7);
    LitRoundTrip(",", rest);
  }

  /** The header followed by more text, grouped the way `HeaderAt` reads it. */
  lemma {:induction false} HeaderTextNested(sep: char, name: string, title: string, bodyType: string, rest: string)
    ensures HeaderText(sep, name, title, bodyType) + rest ==
      "dm()" + ([sep] + ("openMainDialog(\"" + name + "\"" + (",\"" + title + "\"" + (",\"" + bodyType + "\"" + ("," + rest)))))
  {
    var r7 := "," + rest;
    var r5 := ",\"" + bodyType + "\"" + r7;
    var r3 := ",\"" + title + "\"" + r5;
    var r1 := "openMainDialog(\"" + name + "\"" + r3;
    assert HeaderText(sep, name, title, bodyType) + rest == "dm()" + ([sep] + r1);
  }

  /** The matcher reads back exactly the call that was written, and stops where it ends. */
  lemma {:induction false} DialogRoundTrip(d: DialogDirective, rest: string)
    requires WellFormed(d)
    ensures DialogAt(DialogText(d) + rest) == Some((d, rest))
  {
    var r2 := FlagsText(d.flags) + rest;
    var r1 := NumeralsText(d.layout) + r2;
    assert DialogText(d) + rest == HeaderText(d.sep, d.name, d.title, d.bodyType) + r1;
    HeaderRoundTrip(d.sep, d.name, d.title, d.bodyType, r1);
    NumeralsRoundTrip(d.layout, r2);
    FlagsRoundTrip(d.flags, rest);
  }

  /** Several calls written one after another. */
  function DialogsText(ds: seq<DialogDirective>): string
    requires forall i :: 0 <= i < |ds| ==> WellFormed(ds[i])
  {
    if ds == [] then "" else DialogText(ds[0]) + DialogsText(ds[1..])
  }

  /** `finditer` finds every call of a script made of calls, in script order. */
  lemma {:induction false} FindDialogsRoundTrip(ds: seq<DialogDirective>)
    requires forall i :: 0 <= i < |ds| ==> WellFormed(ds[i])
    ensures FindDialogs(DialogsText(ds)) == ds
  {
    if ds == [] {
      assert Lit("", "dm()") == None;
      assert DialogAt("") == None;
    } else {
      FindDialogsAfter(ds[0], DialogsText(ds[1..]));
      FindDialogsRoundTrip(ds[1..]);
      assert [ds[0]] + ds[1..] == ds;
    }
  }

  /** A whole call at the front of the script is the first match, and the scan resumes after it. */
  lemma {:induction false} FindDialogsAfter(d: DialogDirective, rest: string)
    requires WellFormed(d)
    ensures FindDialogs(DialogText(d) + rest) == [d] + FindDialogs(rest)
  {
    DialogRoundTrip(d, rest);
  }

  /** Text where no dialog call starts is passed over: the calls found are those after it. */
  lemma {:induction false} FindDialogsSkips(junk: string, rest: string)
    requires forall i :: 0 <= i < |junk| ==> DialogAt(junk[i..] + rest).None?
    ensures FindDialogs(junk + rest) == FindDialogs(rest)
  {
    if junk == [] {
      assert junk + rest == rest;
    } else {
      assert junk[0..] == junk;
      assert (junk + rest)[1..] == junk[1..] + rest;
      forall i | 0 <= i < |junk[1..]|
        ensures DialogAt(junk[1..][i..] + rest).None?
      {
        assert junk[1..][i..] == junk[i + 1..];
      }
      FindDialogsSkips(junk[1..], rest);
    }
  }

  /**
   * A call after other script text is found, then the search goes on after
   * it, provided no call starts inside that text.
   */
  lemma {:induction false} FindDialogsBetween(junk: string, d: DialogDirective, rest: string)
    requires WellFormed(d)
    requires forall i :: 0 <= i < |junk| ==> DialogAt(junk[i..] + (DialogText(d) + rest)).None?
    ensures FindDialogs(junk + (DialogText(d) + rest)) == [d] + FindDialogs(rest)
  {
    FindDialogsSkips(junk, DialogText(d) + rest);
    FindDialogsAfter(d, rest);
  }

  const ZeroLayout: seq<Numeral> := [Numeral(false, "0"), Numeral(false, "0"), Numeral(false, "0"),
                                      Numeral(false, "0"), Numeral(false, "0"), Numeral(false, "0")]

  lemma {:induction false} DialogExampleHeader()
    ensures HeaderText('.', "F1", "Hlavné okno", "body") == "dm().openMainDialog(\"F1\",\"Hlavné okno\",\"body\","
  {
    DialogExampleName();
    var b := "dm().openMainDialog(\"F1\",\"";
    assert b + "Hlavné okno" + "\"" + ",\"" == "dm().openMainDialog(\"F1\",\"Hlavné okno\",\"";
    DialogExampleBody();
  }

  lemma {:induction false} DialogExampleName()
    ensures "dm()" + ['.'] + "openMainDialog(\"" + "F1" + "\"" + ",\"" == "dm().openMainDialog(\"F1\",\""
  {
    var a := "dm()" + ['.'] + "openMainDialog(\"";
    assert a == "dm().openMainDialog(\"";
  }

  lemma {:induction false} DialogExampleBody()
    ensures "dm().openMainDialog(\"F1\",\"Hlavné okno\",\"" + "body" + "\"" + ","
      == "dm().openMainDialog(\"F1\",\"Hlavné okno\",\"body\","
  {
  }

  lemma {:induction false} DialogExampleNumbers()
    ensures NumeralsText(ZeroLayout) == "0,0,0,0,0,0,"
  {
    assert NumeralText(Numeral(false, "0")) == "0,";
    assert NumeralsText(ZeroLayout[5..]) == "0,";
    assert NumeralsText(ZeroLayout[4..]) == "0,0,";
    assert NumeralsText(ZeroLayout[3..]) == "0,0,0,";
    assert NumeralsText(ZeroLayout[2..]) == "0,0,0,0,";
    assert NumeralsText(ZeroLayout[1..]) == "0,0,0,0,0,";
  }

  lemma {:induction false} DialogExampleFlags()
    ensures FlagsText([true, false, true, false]) == "true,false,true,false);"
  {
    assert FlagsText([false]) == "false);";
    FlagsTextCons(true, [false], "");
    assert [true] + [false] == [true, false];
    FlagsTextCons(false, [true, false], "");
    assert [false] + [true, false] == [false, true, false];
    FlagsTextCons(true, [false, true, false], "");
    assert [true] + [false, true, false] == [true, false, true, false];
    FlagsExampleJoin();
  }

  lemma {:induction false} FlagsExampleJoin()
    ensures "true" + ("," + ("false" + ("," + ("true" + ("," + "false);"))))) == "true,false,true,false);"
  {
  }

  lemma {:induction false} DialogExampleText()
    ensures DialogText(DialogDirective('.', "F1", "Hlavné okno", "body", ZeroLayout, [true, false, true, false]))
      == "dm().openMainDialog(\"F1\",\"Hlavné okno\",\"body\",0,0,0,0,0,0,true,false,true,false);"
  {
    DialogExampleHeader();
    DialogExampleNumbers();
    DialogExampleFlags();
    DialogExampleJoin();
  }

  lemma {:induction false} DialogExampleJoin()
    ensures "dm().openMainDialog(\"F1\",\"Hlavné okno\",\"body\"," + "0,0,0,0,0,0," + "true,false,true,false);"
      == "dm().openMainDialog(\"F1\",\"Hlavné okno\",\"body\",0,0,0,0,0,0,true,false,true,false);"
  {
    var hn := "dm().openMainDialog(\"F1\",\"Hlavné okno\",\"body\"," + "0,0,0,0,0,0,";
    assert hn == "dm().openMainDialog(\"F1\",\"Hlavné okno\",\"body\",0,0,0,0,0,0,";
  }

  /** A one-call example: one call, read as dialog "F1" titled "Hlavné okno". */
  lemma {:induction false} DialogExample()
    ensures var ds := FindDialogs("dm().openMainDialog(\"F1\",\"Hlavné okno\",\"body\",0,0,0,0,0,0,true,false,true,false);");
      |ds| == 1 && ds[0].name == "F1" && ds[0].title == "Hlavné okno"
  {
    var d := DialogDirective('.', "F1", "Hlavné okno", "body", ZeroLayout, [true, false, true, false]);
    assert WellFormed(d);
    DialogExampleText();
    FindDialogsOne(d);
  }

  lemma {:induction false} FindDialogsOne(d: DialogDirective)
    requires WellFormed(d)
    ensures FindDialogs(DialogText(d)) == [d]
  {
    FindDialogsAfter(d, "");
    assert DialogText(d) + "" == DialogText(d);
  }

  // ----- window.setTimeout("WebUI_init(\"<id>\", \"ais\", \"ais/webui2\")", 1) -----

  const InitPrefix: string := "window.setTimeout(\"WebUI_init(\\\""
  const InitSuffix: string := "\\\", \\\"ais\\\", \\\"ais/webui2\\\")\", 1)"

  /** `s` is `prefix`, a non-empty run of digits `ds`, `suffix`, then anything. */
  predicate Between(s: string, prefix: string, ds: string, suffix: string, rest: string)
  {
    |ds| > 0 && AllDigits(ds) && s == prefix + ds + suffix + rest
  }

  /**
   * A literal, a greedy run of digits and another literal at the start of
   * `s`: the digits' value. A result means all three were there.
   */
  function NumberBetween(s: string, prefix: string, suffix: string): (r: Option<nat>)
    ensures r.Some? ==> StartsWith(s, prefix)
    ensures r.Some? ==> exists ds, rest :: Between(s, prefix, ds, suffix, rest) && r.value == Value(ds)
  {
    match Lit(s, prefix)
    case None => None
    case Some(r1) =>
      var n := DigitRun(r1);
      if n == 0 || !StartsWith(r1[n..], suffix) then None
      else
        var tail := r1[n..];
        assert tail == suffix + tail[|suffix|..];
        assert r1 == r1[..n] + tail;
        assert Between(s, prefix, r1[..n], suffix, tail[|suffix|..]);
        Some(Value(r1[..n]))
  }

  /**
   * Conversely, when the suffix does not start with a digit, the literal,
   * any digit run (leading zeros included) and the suffix are always found.
   */
  lemma {:induction false} NumberBetweenOf(prefix: string, ds: string, suffix: string, rest: string)
    requires |ds| > 0 && AllDigits(ds)
    requires |suffix| > 0 && !IsDigit(suffix[0])
    ensures NumberBetween(prefix + ds + suffix + rest, prefix, suffix) == Some(Value(ds))
  {
    var r1 := ds + (suffix + rest);
    assert prefix + ds + suffix + rest == prefix + r1;
    LitRoundTrip(prefix, r1);
    DigitRunOfDigitsThen(ds, suffix + rest);
    assert r1[..|ds|] == ds;
    assert r1[|ds|..] == suffix + rest;
    LitRoundTrip(suffix, rest);
  }

  lemma {:induction false} NumberBetweenRoundTrip(prefix: string, suffix: string, n: nat, rest: string)
    requires |suffix| > 0 && !IsDigit(suffix[0])
    ensures NumberBetween(prefix + NatToString(n) + suffix + rest, prefix, suffix) == Some(n)
  {
    NumberBetweenOf(prefix, NatToString(n), suffix, rest);
    ValueOfNatToString(n);
  }

  /**
   * `re.match` of the bootstrap `onload` literal and `int` of its digits: the
   * application id, or None when the literal is not at the start.
   */
  function ParseAppId(onload: string): (r: Option<nat>)
    ensures r.Some? ==> StartsWith(onload, InitPrefix)
    ensures r.Some? ==> exists ds, rest :: Between(onload, InitPrefix, ds, InitSuffix, rest) && r.value == Value(ds)
  {
    NumberBetween(onload, InitPrefix, InitSuffix)
  }

  function OnloadText(id: nat): string
  {
    InitPrefix + NatToString(id) + InitSuffix
  }

  /** The id written into the bootstrap literal is the id read back, whatever follows the literal. */
  lemma {:induction false} AppIdRoundTrip(id: nat, rest: string)
    ensures ParseAppId(OnloadText(id) + rest) == Some(id)
  {
    assert InitSuffix[0] == '\\';
    NumberBetweenRoundTrip(InitPrefix, InitSuffix, id, rest);
  }

  /**
   * The id is found exactly when the text starts with the bootstrap literal
   * around a run of digits, and it is the value of those digits.
   */
  lemma {:induction false} ParseAppIdIff(onload: string, id: nat)
    ensures ParseAppId(onload) == Some(id) <==>
      exists ds, rest :: Between(onload, InitPrefix, ds, InitSuffix, rest) && id == Value(ds)
  {
    if ds, rest :| Between(onload, InitPrefix, ds, InitSuffix, rest) && id == Value(ds) {
      assert InitSuffix[0] == '\\';
      NumberBetweenOf(InitPrefix, ds, InitSuffix, rest);
    }
  }
}
