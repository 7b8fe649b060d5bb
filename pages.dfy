/** The page records `xml_to_pages` (index.js:26-78) builds from the XML
    parser's events. The parser itself is not modelled: its output is a
    sequence of `Event`s, tag names as the parser reports them. The three handlers
    (index.js:53-75) keep three variables: the page under construction (null
    before the first `<page>`), the text seen since the last tag, and the
    namespace of the current page (null until its `</ns>`). */
module PageAssembly {
  import opened Wrappers
  import opened Sequences

  /** What the parser reports: character data, an opening tag, a closing tag. */
  datatype Event = Text(chars: string) | Open(name: string) | Close(name: string)

  /** A page record: `{title, text}`. */
  datatype Page = Page(title: string, text: string)

  /** The handlers' three variables. */
  datatype State = State(page: Option<Page>, text: string, ns: Option<string>)

  /** A handler call that does not return normally.
      `NullPage(tag)`: closing `title` or `text` while `page` is still null
      assigns a field of null, which throws.
      `PushedNull`: closing `page` when the namespace is `"0"` but no page was
      ever started pushes null, which ends the stage's output. The handler
      itself does not throw: it goes on to empty the text, and the parser
      keeps delivering events, but since nothing more can be pushed the model
      stops the run there. */
  datatype Halt = NullPage(tag: string) | PushedNull

  const Initial: State := State(None, "", None)

  /** The effect of one event: the new state and the page pushed downstream,
      if any (index.js:53-75). */
  function Step(st: State, e: Event): (r: Result<(State, Option<Page>), Halt>)
    ensures r.Ok? && r.value.1.Some? ==> e == Close("page") && r.value.1 == st.page
    ensures r.Err? ==> e.Close? && st.page.None?
  {
    match e
    case Text(t) => Ok((st.(text := st.text + t), None))
    case Open(name) =>
      if name == "page" then Ok((State(Some(Page("", "")), "", None), None))
      else Ok((st.(text := ""), None))
    case Close(name) =>
      if name == "page" then
        if st.ns == Some("0") then
          if st.page.None? then Err(PushedNull) else Ok((st.(text := ""), st.page))
        else Ok((st.(text := ""), None))
      else if name == "ns" then Ok((st.(ns := Some(st.text), text := ""), None))
      else if name == "title" then
        if st.page.None? then Err(NullPage(name))
        else Ok((State(Some(st.page.value.(title := st.text)), "", st.ns), None))
      else if name == "text" then
        if st.page.None? then Err(NullPage(name))
        else Ok((State(Some(st.page.value.(text := st.text)), "", st.ns), None))
      else Ok((st.(text := ""), None))
  }

  /** A page is pushed exactly on `</page>` when the namespace is `"0"`, and
      it is the current page; a handler fails exactly when it would assign a
      field of the null page or push null; every tag event empties the text
      accumulator. */
  lemma StepContract(st: State, e: Event)
    ensures var r := Step(st, e);
            (r.Ok? && r.value.1.Some? <==> (e == Close("page") && st.ns == Some("0") && st.page.Some?)) &&
            (r.Ok? && r.value.1.Some? ==> r.value.1 == st.page) &&
            (r.Err? <==> (e.Close? && st.page.None? &&
                          (e.name == "title" || e.name == "text" || (e.name == "page" && st.ns == Some("0"))))) &&
            (r.Ok? && !e.Text? ==> r.value.0.text == "")
  {
  }

  /** What a run of events produces: the pages pushed, in order, the final
      state, and the halt that cut the run short, if any. */
  datatype Outcome = Outcome(pages: seq<Page>, final: State, halt: Option<Halt>)

  function PageList(p: Option<Page>): seq<Page>
  {
    if p.Some? then [p.value] else []
  }

  /** The events handled one after another from `st`; a halt stops the run and
      keeps the pages pushed before it. */
  function Replay(st: State, events: seq<Event>): Outcome
    decreases |events|
  {
    if events == [] then Outcome([], st, None)
    else
      var step := Step(st, events[0]);
      if step.Err? then Outcome([], st, Some(step.error))
      else
        var rest := Replay(step.value.0, events[1..]);
        rest.(pages := PageList(step.value.1) + rest.pages)
  }

  /** Running `a` and then `b` is running `a + b`. */
  lemma {:induction false} ReplayAppend(st: State, a: seq<Event>, b: seq<Event>)
    ensures Replay(st, a + b) ==
              var first := Replay(st, a);
              if first.halt.Some? then first
              else var second := Replay(first.final, b);
                   second.(pages := first.pages + second.pages)
    decreases |a|
  {
    if a == [] {
      assert a + b == b;
    } else {
      assert (a + b)[0] == a[0];
      assert (a + b)[1..] == a[1..] + b;
      match Step(st, a[0])
      case Err(_) =>
      case Ok((next, pushed)) =>
        ReplayAppend(next, a[1..], b);
    }
  }

  /** A run that ends without a halt continues with whatever follows it. */
  lemma ReplayThen(st: State, a: seq<Event>, b: seq<Event>, mid: State, pages: seq<Page>)
    requires Replay(st, a) == Outcome(pages, mid, None)
    ensures Replay(st, a + b) == Replay(mid, b).(pages := pages + Replay(mid, b).pages)
  {
    ReplayAppend(st, a, b);
  }

  function CountClosePage(events: seq<Event>): nat
  {
    if events == [] then 0
    else (if events[0] == Close("page") then 1 else 0) + CountClosePage(events[1..])
  }

  /** Pages are pushed only by `</page>` events: never more pages than those. */
  lemma {:induction false} PagesOnlyOnClosePage(st: State, events: seq<Event>)
    ensures |Replay(st, events).pages| <= CountClosePage(events)
    decreases |events|
  {
    if events != [] {
      match Step(st, events[0])
      case Err(_) =>
      case Ok((next, pushed)) =>
        PagesOnlyOnClosePage(next, events[1..]);
    }
  }

  function TextEvents(parts: seq<string>): (r: seq<Event>)
    ensures |r| == |parts| && forall k :: 0 <= k < |parts| ==> r[k] == Text(parts[k])
  {
    seq(|parts|, k requires 0 <= k < |parts| => Text(parts[k]))
  }

  /** Character data only extends the text accumulator: nothing is pushed and
      nothing else changes. */
  lemma {:induction false} TextAccumulates(st: State, parts: seq<string>)
    ensures Replay(st, TextEvents(parts)) == Outcome([], st.(text := st.text + Flatten(parts)), None)
    decreases |parts|
  {
    if parts == [] {
      assert st.text + "" == st.text;
    } else {
      var next := st.(text := st.text + parts[0]);
      assert TextEvents(parts)[0] == Text(parts[0]);
      assert Step(st, Text(parts[0])) == Ok((next, None));
      assert TextEvents(parts)[1..] == TextEvents(parts[1..]);
      TextAccumulates(next, parts[1..]);
      assert st.text + parts[0] + Flatten(parts[1..]) == st.text + Flatten(parts);
    }
  }

  /** After any tag event the text accumulator is empty, so a closing `ns`,
      `title` or `text` receives exactly the character data reported since the
      previous tag event. */
  lemma {:induction false} CloseTakesTextSinceLastTag(st: State, tag: Event, parts: seq<string>, name: string)
    requires !tag.Text? && Step(st, tag).Ok?
    requires name in {"ns", "title", "text"}
    requires name != "ns" ==> Step(st, tag).value.0.page.Some?
    ensures var o := Replay(st, [tag] + TextEvents(parts) + [Close(name)]);
            o.halt.None? && o.final.text == "" &&
            (name == "ns" ==> o.final.ns == Some(Flatten(parts))) &&
            (name == "title" ==> o.final.page.Some? && o.final.page.value.title == Flatten(parts)) &&
            (name == "text" ==> o.final.page.Some? && o.final.page.value.text == Flatten(parts))
  {
    var mid := Step(st, tag).value.0;
    assert mid.text == "";
    ReplayAppend(st, [tag], TextEvents(parts) + [Close(name)]);
    assert [tag] + TextEvents(parts) + [Close(name)] == [tag] + (TextEvents(parts) + [Close(name)]);
    ReplayAppend(mid, TextEvents(parts), [Close(name)]);
    TextAccumulates(mid, parts);
    assert "" + Flatten(parts) == Flatten(parts);
    CloseField(mid.(text := Flatten(parts)), name);
  }

  /** `</ns>`, `</title>` or `</text>` moves the accumulated text into its field. */
  lemma CloseField(st: State, name: string)
    requires name in {"ns", "title", "text"}
    requires name != "ns" ==> st.page.Some?
    ensures var o := Replay(st, [Close(name)]);
            o.halt.None? && o.final.text == "" &&
            (name == "ns" ==> o.final.ns == Some(st.text)) &&
            (name == "title" ==> o.final.page.Some? && o.final.page.value.title == st.text) &&
            (name == "text" ==> o.final.page.Some? && o.final.page.value.text == st.text)
  {
    assert [Close(name)][1..] == [];
  }

  /** The events of `<name>chars</name>`. */
  function Element(name: string, chars: string): seq<Event>
  {
    [Open(name), Text(chars), Close(name)]
  }

  /** The events of one well-formed page element: title, namespace, body. */
  function PageEvents(title: string, ns: string, body: string): seq<Event>
  {
    [Open("page")] + Element("title", title) + Element("ns", ns) + Element("text", body) + [Close("page")]
  }

  lemma ElementSetsField(st: State, name: string, chars: string)
    requires name in {"ns", "title", "text"}
    requires name != "ns" ==> st.page.Some?
    ensures var o := Replay(st, Element(name, chars));
            o.pages == [] && o.halt.None? && o.final.text == "" &&
            o.final == (if name == "ns" then st.(ns := Some(chars), text := "")
                        else if name == "title" then State(Some(st.page.value.(title := chars)), "", st.ns)
                        else State(Some(st.page.value.(text := chars)), "", st.ns))
  {
    var es := Element(name, chars);
    var fin := if name == "ns" then st.(ns := Some(chars), text := "")
               else if name == "title" then State(Some(st.page.value.(title := chars)), "", st.ns)
               else State(Some(st.page.value.(text := chars)), "", st.ns);
    var cleared := st.(text := "");
    var filled := st.(text := chars);
    assert es[1..] == [Text(chars), Close(name)] && es[2..] == [Close(name)] && es[1..][1..] == es[2..];
    assert [Close(name)][1..] == [];
    assert "" + chars == chars;
    assert Step(filled, Close(name)) == Ok((fin, None));
    assert Replay(filled, es[2..]) == Outcome([], fin, None);
    assert Step(cleared, Text(chars)) == Ok((filled, None));
    assert Replay(cleared, es[1..]) == Outcome([], fin, None);
    assert Step(st, Open(name)) == Ok((cleared, None));
  }

  /** `<page>` and its three fields leave a filled page, with nothing pushed. */
  lemma PageFields(st: State, title: string, ns: string, body: string)
    ensures Replay(st, [Open("page")] + (Element("title", title) + (Element("ns", ns) + Element("text", body)))) ==
            Outcome([], State(Some(Page(title, body)), "", Some(ns)), None)
  {
    var s1 := State(Some(Page("", "")), "", None);
    var s2 := State(Some(Page(title, "")), "", None);
    var s3 := State(Some(Page(title, "")), "", Some(ns));
    var s4 := State(Some(Page(title, body)), "", Some(ns));
    var t, n, x := Element("title", title), Element("ns", ns), Element("text", body);
    ElementSetsField(s3, "text", body);
    ElementSetsField(s2, "ns", ns);
    ReplayThen(s2, n, x, s3, []);
    ElementSetsField(s1, "title", title);
    ReplayThen(s1, t, n + x, s2, []);
    assert [Open("page")][1..] == [];
    assert Replay(st, [Open("page")]) == Outcome([], s1, None);
    ReplayThen(st, [Open("page")], t + (n + x), s1, []);
  }

  /** A page element is pushed, with its title and body, exactly when its
      namespace is `"0"`, whatever came before it. */
  lemma PageElement(st: State, title: string, ns: string, body: string)
    ensures var o := Replay(st, PageEvents(title, ns, body));
            o.halt.None? &&
            o.pages == (if ns == "0" then [Page(title, body)] else []) &&
            o.final == State(Some(Page(title, body)), "", Some(ns))
  {
    var filled := State(Some(Page(title, body)), "", Some(ns));
    var fields := [Open("page")] + (Element("title", title) + (Element("ns", ns) + Element("text", body)));
    assert PageEvents(title, ns, body) == fields + [Close("page")];
    PageFields(st, title, ns, body);
    ReplayThen(st, fields, [Close("page")], filled, []);
    assert [Close("page")][1..] == [];
    assert Replay(filled, [Close("page")]) == Outcome(if ns == "0" then [Page(title, body)] else [], filled, None);
  }

  /** The handlers and their variables, as `xml_to_pages` keeps them in its
      closure; `pushed` is what the stage has handed downstream. */
  class PageAssembler {
    var page: Option<Page>
    var text: string
    var ns: Option<string>
    var pushed: seq<Page>

    function Current(): State
      reads this
    {
      State(page, text, ns)
    }

    constructor ()
      ensures Current() == Initial && pushed == []
    {
      page, text, ns, pushed := None, "", None, [];
    }

    /** The `text` handler (index.js:53). */
    method OnText(t: string)
      modifies this
      ensures text == old(text) + t
      ensures page == old(page) && ns == old(ns) && pushed == old(pushed)
      ensures Step(old(Current()), Text(t)) == Ok((Current(), None))
    {
      text := text + t;
    }

    /** The `opentag` handler (index.js:54-60). */
    method OnOpenTag(name: string)
      modifies this
      ensures text == "" && pushed == old(pushed)
      ensures name == "page" ==> page == Some(Page("", "")) && ns == None
      ensures name != "page" ==> page == old(page) && ns == old(ns)
      ensures Step(old(Current()), Open(name)) == Ok((Current(), None))
    {
      text := "";
      if name == "page" {
        page := Some(Page("", ""));
        ns := None;
      }
    }

    /** The `closetag` handler (index.js:61-75). On a halt nothing has changed. */
    method OnCloseTag(name: string) returns (halt: Option<Halt>)
      modifies this
      ensures halt.Some? ==> Step(old(Current()), Close(name)) == Err(halt.value)
      ensures halt.Some? ==> Current() == old(Current()) && pushed == old(pushed)
      ensures halt.None? ==> Step(old(Current()), Close(name)).Ok?
      ensures halt.None? ==> Step(old(Current()), Close(name)).value.0 == Current()
      ensures halt.None? ==> pushed == old(pushed) + PageList(Step(old(Current()), Close(name)).value.1)
    {
      if name == "page" {
        if ns == Some("0") {
          if page.None? {
            return Some(PushedNull);
          }
          pushed := pushed + [page.value];
        }
      } else if name == "ns" {
        ns := Some(text);
      } else if name == "title" {
        if page.None? {
          return Some(NullPage(name));
        }
        page := Some(page.value.(title := text));
      } else if name == "text" {
        if page.None? {
          return Some(NullPage(name));
        }
        page := Some(page.value.(text := text));
      }
      text := "";
      halt := None;
    }

    /** The parser calling the handler registered for the event's kind. */
    method Handle(e: Event) returns (halt: Option<Halt>)
      modifies this
      ensures halt.Some? ==> Step(old(Current()), e) == Err(halt.value)
      ensures halt.Some? ==> Current() == old(Current()) && pushed == old(pushed)
      ensures halt.None? ==> Step(old(Current()), e).Ok?
      ensures halt.None? ==> Step(old(Current()), e).value.0 == Current()
      ensures halt.None? ==> pushed == old(pushed) + PageList(Step(old(Current()), e).value.1)
    {
      halt := None;
      match e {
        case Text(t) =>
          OnText(t);
          assert pushed == old(pushed) + [];
        case Open(name) =>
          OnOpenTag(name);
          assert pushed == old(pushed) + [];
        case Close(name) =>
          halt := OnCloseTag(name);
      }
    }
  }

  /** The outcome with `done` pushed before its own pages. */
  function After(done: seq<Page>, o: Outcome): Outcome
  {
    o.(pages := done + o.pages)
  }

  lemma ReplayUnfold(st: State, events: seq<Event>, done: seq<Page>)
    requires events != [] && Step(st, events[0]).Ok?
    ensures After(done, Replay(st, events)) ==
              After(done + PageList(Step(st, events[0]).value.1), Replay(Step(st, events[0]).value.0, events[1..]))
  {
    var step := Step(st, events[0]);
    var rest := Replay(step.value.0, events[1..]);
    assert Replay(st, events) == rest.(pages := PageList(step.value.1) + rest.pages);
    assert done + (PageList(step.value.1) + rest.pages) == done + PageList(step.value.1) + rest.pages;
  }

  /** Feeds the events to a fresh page assembler, one handler call each, and
      reports what it pushed and how it stopped. */
  method Assemble(events: seq<Event>) returns (pages: seq<Page>, halt: Option<Halt>)
    ensures pages == Replay(Initial, events).pages && halt == Replay(Initial, events).halt
  {
    var a := new PageAssembler();
    var i := 0;
    assert Replay(Initial, events) == After([], Replay(Initial, events[0..]));
    while i < |events|
      invariant 0 <= i <= |events|
      invariant Replay(Initial, events) == After(a.pushed, Replay(a.Current(), events[i..]))
    {
      ghost var before := a.Current();
      ghost var done := a.pushed;
      var h := a.Handle(events[i]);
      if h.Some? {
        assert Replay(before, events[i..]) == Outcome([], before, h);
        return a.pushed, h;
      }
      ReplayUnfold(before, events[i..], done);
      assert events[i..][1..] == events[i + 1..];
      i := i + 1;
    }
    return a.pushed, None;
  }
}
