/** What an attribute stream spells, read by recursive descent, and that the builders read exactly that. */
module AnnotationGrammar {
  import opened Options
  import opened Annotations

  datatype Parsed<T> = Fail | Ok(value: T, rest: seq<Attr>)

  /** A run of values of one type. */
  function ParseValues(read: Reader, ids: map<string, Data>, typ: Type, s: seq<Attr>): (p: Parsed<seq<Scalar>>)
    requires !typ.Array?
    ensures p.Ok? ==> |p.rest| <= |s| && (p.rest == [] || !p.rest[0].ValueOf?)
    decreases |s|
  {
    if s == [] || !s[0].ValueOf? then Ok([], s)
    else
      var v, more := CreateValue(read, typ, s[0].text, ids), ParseValues(read, ids, typ, s[1..]);
      if v.None? || more.Fail? then Fail else Ok([v.value] + more.value, more.rest)
  }

  /** An element, from its type on: a scalar has one value, an array a component type and any number of values. */
  function ParseElement(read: Reader, ids: map<string, Data>, name: string, s: seq<Attr>): (p: Parsed<Element>)
    ensures p.Ok? ==> |p.rest| < |s| && (p.value.value.Many? ==> p.rest == [] || !p.rest[0].ValueOf?)
  {
    if |s| < 2 || !s[0].TypeOf? then Fail
    else if s[0].typ.Array? then
      if !s[1].ComponentOf? || s[1].typ.Array? then Fail
      else
        var vs := ParseValues(read, ids, s[1].typ, s[2..]);
        if vs.Fail? then Fail else Ok(Element(name, Many(s[1].typ, vs.value)), vs.rest)
    else if !s[1].ValueOf? then Fail
    else
      var v := CreateValue(read, s[0].typ, s[1].text, ids);
      if v.None? then Fail else Ok(Element(name, One(v.value)), s[2..])
  }

  function ParseElements(read: Reader, ids: map<string, Data>, s: seq<Attr>): (p: Parsed<seq<Element>>)
    ensures p.Ok? ==> |p.rest| <= |s| && (p.rest == [] || !p.rest[0].Name?)
    decreases |s|
  {
    if s == [] || !s[0].Name? then Ok([], s)
    else
      var e := ParseElement(read, ids, s[0].name, s[1..]);
      if e.Fail? then Fail
      else
        var more := ParseElements(read, ids, e.rest);
        if more.Fail? then Fail else Ok([e.value] + more.value, more.rest)
  }

  /** The annotations without an id, in order, and those with one. */
  datatype Doc = Doc(annotations: seq<Data>, ids: map<string, Data>)

  function WithAnnotation(doc: Doc, id: Option<string>, data: Data): Doc {
    if id.Some? then doc.(ids := WithId(doc.ids, id.value, data)) else doc.(annotations := doc.annotations + [data])
  }

  /** An optional id right behind the record. */
  function ParseId(s: seq<Attr>): (Option<string>, seq<Attr>) {
    if s != [] && s[0].Id? then (Some(s[0].id), s[1..]) else (None, s)
  }

  function ParseDoc(read: Reader, doc: Doc, s: seq<Attr>): Option<Doc>
    decreases |s|
  {
    if s == [] then Some(doc)
    else if s[0].Flag? || s[0].Other? then ParseDoc(read, doc, s[1..])
    else if !s[0].Record? then None
    else
      var (id, s1) := ParseId(s[1..]);
      var es := ParseElements(read, doc.ids, s1);
      if es.Fail? then None
      else ParseDoc(read, WithAnnotation(doc, id, Data(s[0].name, es.value)), es.rest)
  }

  // ----- the builders follow the grammar -----

  predicate Failed(o: Outcome) {
    !o.Done?
  }

  /** The machine's answer to a failed parse, or its state where the parse stopped. */
  lemma {:induction false} ValuesRun(read: Reader, st: State, s: seq<Attr>)
    requires Valid(st) && st.el.active && IsArray(st.el) && st.el.component.Some?
    ensures var p := ParseValues(read, st.ids, st.el.component.value, s);
            if p.Fail? then Failed(Run(read, st, s))
            else Run(read, st, s) == Run(read, st.(el := st.el.(values := st.el.values + p.value)), p.rest)
    decreases |s|
  {
    if s == [] || !s[0].ValueOf? {
      assert st.el.values + [] == st.el.values;
    } else {
      var v := CreateValue(read, st.el.component.value, s[0].text, st.ids);
      if v.Some? {
        var st1 := st.(el := st.el.(values := st.el.values + [v.value]));
        ValuesRun(read, st1, s[1..]);
        var p := ParseValues(read, st.ids, st.el.component.value, s[1..]);
        if p.Ok? { assert st.el.values + [v.value] + p.value == st.el.values + ([v.value] + p.value); }
      }
    }
  }

  /** An element builder that holds `e`. */
  function Holding(e: Element): ElementBuilder {
    match e.value
    case One(v) => ElementBuilder(true, e.name, Some(if v.Nested? then Annotation else v.typ), None, [v])
    case Many(c, vs) => ElementBuilder(true, e.name, Some(Array), Some(c), vs)
  }

  /** The element builder right behind an element name. */
  function Named(name: string): ElementBuilder {
    ElementBuilder(true, name, None, None, [])
  }

  lemma RunOne(read: Reader, st: State, s: seq<Attr>)
    requires s != []
    ensures Step(read, st, s[0]).Done? ==> Run(read, st, s) == Run(read, Step(read, st, s[0]).st, s[1..])
    ensures Failed(Step(read, st, s[0])) ==> Failed(Run(read, st, s))
  {
  }

  /** Behind the type of an element nothing but its component type or its value is accepted. */
  lemma BehindType(read: Reader, st: State, s: seq<Attr>)
    requires Valid(st) && st.el.active && st.el.typ.Some? && st.el.component.None? && st.el.values == []
    ensures s == [] ==> Failed(Run(read, st, s))
    ensures s != [] && !(if IsArray(st.el) then s[0].ComponentOf? && !s[0].typ.Array? else s[0].ValueOf?) ==>
              Failed(Run(read, st, s))
  {
  }

  lemma ArrayRun(read: Reader, st: State, s: seq<Attr>)
    requires Valid(st) && st.el.active && IsArray(st.el) && st.el.component.None? && st.el.values == []
    requires s != [] && s[0].ComponentOf? && !s[0].typ.Array?
    ensures var p := ParseValues(read, st.ids, s[0].typ, s[1..]);
            if p.Fail? then Failed(Run(read, st, s))
            else Run(read, st, s) == Run(read, st.(el := st.el.(component := Some(s[0].typ), values := p.value)),
              p.rest)
  {
    RunOne(read, st, s);
    var st1 := st.(el := st.el.(component := Some(s[0].typ)));
    ValuesRun(read, st1, s[1..]);
    var p := ParseValues(read, st.ids, s[0].typ, s[1..]);
    if p.Ok? { assert st1.el.values + p.value == p.value; }
  }

  lemma ScalarRun(read: Reader, st: State, s: seq<Attr>)
    requires Valid(st) && st.el.active && st.el.typ.Some? && !IsArray(st.el) && st.el.component.None?
      && st.el.values == []
    requires s != [] && s[0].ValueOf?
    ensures var v := CreateValue(read, st.el.typ.value, s[0].text, st.ids);
            if v.None? then Failed(Run(read, st, s))
            else Run(read, st, s) == Run(read, st.(el := st.el.(values := [v.value])), s[1..])
  {
    RunOne(read, st, s);
    var v := CreateValue(read, st.el.typ.value, s[0].text, st.ids);
    if v.Some? { assert st.el.values + [v.value] == [v.value]; }
  }

  lemma ElementRun(read: Reader, st: State, name: string, s: seq<Attr>)
    requires Valid(st) && st.el == Named(name)
    ensures var p := ParseElement(read, st.ids, name, s);
            if p.Fail? then Failed(Run(read, st, s))
            else Run(read, st, s) == Run(read, st.(el := Holding(p.value)), p.rest)
  {
    if s != [] {
      RunOne(read, st, s);
      if s[0].TypeOf? {
        var st1 := st.(el := st.el.(typ := Some(s[0].typ)));
        var t := s[1..];
        BehindType(read, st1, t);
        if |s| >= 2 {
          assert t[0] == s[1] && t[1..] == s[2..];
          if s[0].typ.Array? {
            if s[1].ComponentOf? && !s[1].typ.Array? { ArrayRun(read, st1, t); }
          } else if s[1].ValueOf? {
            ScalarRun(read, st1, t);
          }
        }
      }
    }
  }

  /** The elements of the annotation that is being built, the completed one in the builder included. */
  function AllElements(st: State): seq<Element>
    requires !Unfinished(st)
  {
    st.ann.elements + if st.el.active then [CreateElement(st.el)] else []
  }

  /** The state after more elements, the last of them still in the builder. */
  function After(st: State, es: seq<Element>): State
    requires !Unfinished(st)
  {
    if es == [] then st
    else st.(ann := st.ann.(elements := AllElements(st) + es[..|es| - 1]), el := Holding(es[|es| - 1]))
  }

  predicate Proper(e: Element) {
    match e.value
    case One(v) => v.Nested? || !v.typ.Array?
    case Many(c, _) => !c.Array?
  }

  lemma HeldElement(e: Element)
    requires Proper(e)
    ensures IsCompleted(Holding(e)) && CreateElement(Holding(e)) == e
  {
  }

  predicate ValuesEnded(st: State, s: seq<Attr>) {
    st.el.active && IsArray(st.el) ==> s == [] || !s[0].ValueOf?
  }

  ghost predicate AllProper(es: seq<Element>) {
    forall i :: 0 <= i < |es| ==> Proper(es[i])
  }

  lemma AfterBoth(st: State, e: Element, es: seq<Element>)
    requires !Unfinished(st) && Proper(e) && AllProper(es)
    ensures var st2 := After(st, [e]); !Unfinished(st2) && After(st2, es) == After(st, [e] + es)
  {
    HeldElement(e);
    var st2 := After(st, [e]);
    assert AllElements(st) + [] == AllElements(st);
    assert AllElements(st2) == AllElements(st) + [e];
    if es != [] {
      assert ([e] + es)[..|es|] == [e] + es[..|es| - 1];
      assert AllElements(st2) + es[..|es| - 1] == AllElements(st) + ([e] + es[..|es| - 1]);
    } else {
      assert [e] + es == [e];
    }
  }

  lemma ParsedIsProper(read: Reader, ids: map<string, Data>, name: string, s: seq<Attr>)
    ensures ParseElement(read, ids, name, s).Ok? ==> Proper(ParseElement(read, ids, name, s).value)
  {
  }

  lemma NameRun(read: Reader, st: State, s: seq<Attr>)
    requires Valid(st) && st.ann.active && !Unfinished(st) && s != [] && s[0].Name?
    ensures Run(read, st, s) == Run(read, st.(ann := st.ann.(elements := AllElements(st)), el := Named(s[0].name)),
      s[1..])
  {
    RunOne(read, st, s);
    if !st.el.active { assert AllElements(st) == st.ann.elements; }
  }

  lemma {:induction false} ElementsRun(read: Reader, st: State, s: seq<Attr>)
    requires Valid(st) && st.ann.active && !Unfinished(st) && ValuesEnded(st, s)
    ensures var p := ParseElements(read, st.ids, s);
            if p.Fail? then Failed(Run(read, st, s))
            else
              && AllProper(p.value) && Run(read, st, s) == Run(read, After(st, p.value), p.rest)
              && ValuesEnded(After(st, p.value), p.rest)
    decreases |s|
  {
    if s != [] && s[0].Name? {
      NameRun(read, st, s);
      var st1 := st.(ann := st.ann.(elements := AllElements(st)), el := Named(s[0].name));
      ElementRun(read, st1, s[0].name, s[1..]);
      ParsedIsProper(read, st.ids, s[0].name, s[1..]);
      var e := ParseElement(read, st.ids, s[0].name, s[1..]);
      if e.Ok? {
        var st2 := After(st, [e.value]);
        HeldElement(e.value);
        assert AllElements(st) + [] == AllElements(st);
        assert st2 == st1.(el := Holding(e.value));
        ElementsRun(read, st2, e.rest);
        var more := ParseElements(read, st.ids, e.rest);
        if more.Ok? { AfterBoth(st, e.value, more.value); }
      }
    }
  }

  // ----- whole streams -----

  /** What has been read so far, the annotation in the builder included. */
  function DocOf(st: State): Doc
    requires !Unfinished(st)
  {
    var doc := Doc(st.annotations, st.ids);
    if st.ann.active then WithAnnotation(doc, st.ann.id, Data(st.ann.name, AllElements(st))) else doc
  }

  function Idle(doc: Doc): State {
    State(NO_ANNOTATION, NO_ELEMENT, doc.annotations, doc.ids)
  }

  lemma FlushedIsDoc(st: State)
    requires Valid(st) && !Unfinished(st)
    ensures Ended(st) == Done(Idle(DocOf(st)))
  {
    if st.ann.active && !st.el.active { assert AllElements(st) == st.ann.elements; }
  }

  /** The parser would not have read the next attribute as part of the annotation in the builder. */
  predicate AnnotationEnded(st: State, s: seq<Attr>) {
    && ValuesEnded(st, s)
    && (st.ann.active && s != [] ==> !s[0].Name? && (st.el.active || st.ann.id.Some? || !s[0].Id?))
  }

  function Opened(doc: Doc, name: string, id: Option<string>): State {
    State(AnnotationBuilder(true, name, id, []), NO_ELEMENT, doc.annotations, doc.ids)
  }

  lemma RecordRun(read: Reader, st: State, s: seq<Attr>)
    requires Valid(st) && !Unfinished(st) && s != [] && s[0].Record?
    ensures var (id, s1) := ParseId(s[1..]); Run(read, st, s) == Run(read, Opened(DocOf(st), s[0].name, id), s1)
  {
    FlushedIsDoc(st);
    RunOne(read, st, s);
    var st1 := Opened(DocOf(st), s[0].name, None);
    assert Step(read, st, s[0]) == Done(st1);
    var t := s[1..];
    if t != [] && t[0].Id? { RunOne(read, st1, t); }
  }

  lemma OpenedDoc(doc: Doc, name: string, id: Option<string>, es: seq<Element>)
    requires AllProper(es)
    ensures var st := After(Opened(doc, name, id), es);
            && Valid(st) && st.ann.active && !Unfinished(st) && st.ann.id == id
            && (es == [] ==> !st.el.active) && (es != [] ==> st.el.active)
            && DocOf(st) == WithAnnotation(doc, id, Data(name, es))
  {
    var st0 := Opened(doc, name, id);
    var st := After(st0, es);
    assert AllElements(st0) == [];
    if es != [] {
      HeldElement(es[|es| - 1]);
      assert AllElements(st) == es[..|es| - 1] + [es[|es| - 1]] == es;
    }
  }

  /** Attributes that cannot follow a finished annotation are errors, whatever is in the builders. */
  lemma Unexpected(read: Reader, st: State, s: seq<Attr>)
    requires Valid(st) && !Unfinished(st) && AnnotationEnded(st, s) && s != []
    requires s[0].Id? || s[0].Name? || s[0].TypeOf? || s[0].ComponentOf? || s[0].ValueOf?
    ensures Failed(Run(read, st, s))
  {
    RunOne(read, st, s);
  }

  lemma {:induction false} DocRun(read: Reader, st: State, s: seq<Attr>)
    requires Valid(st) && !Unfinished(st) && AnnotationEnded(st, s)
    ensures var d := ParseDoc(read, DocOf(st), s);
            if d.None? then Failed(Run(read, st, s)) else Run(read, st, s) == Done(Idle(d.value))
    decreases |s|
  {
    FlushedIsDoc(st);
    if s != [] {
      if s[0].Flag? || s[0].Other? {
        RunOne(read, st, s);
        DocRun(read, Idle(DocOf(st)), s[1..]);
      } else if s[0].Record? {
        RecordRun(read, st, s);
        var (id, s1) := ParseId(s[1..]);
        var st1 := Opened(DocOf(st), s[0].name, id);
        ElementsRun(read, st1, s1);
        var es := ParseElements(read, DocOf(st).ids, s1);
        if es.Ok? {
          OpenedDoc(DocOf(st), s[0].name, id, es.value);
          NotAnId(read, DocOf(st).ids, s[1..]);
          DocRun(read, After(st1, es.value), es.rest);
        }
      } else {
        Unexpected(read, st, s);
      }
    }
  }

  /** Behind an annotation without an id and without elements no id is left over. */
  lemma NotAnId(read: Reader, ids: map<string, Data>, s: seq<Attr>)
    ensures var (id, s1) := ParseId(s);
            var es := ParseElements(read, ids, s1);
            es.Ok? && es.value == [] && id.None? && es.rest != [] ==> !es.rest[0].Id?
  {
  }

  /**
   * A stream is accepted if and only if it spells a list of annotations, and then the builders end empty and hold
   * exactly the annotations it spells: those without an id in order, the others by id.
   */
  lemma BuildersReadTheGrammar(read: Reader, s: seq<Attr>)
    ensures var d := ParseDoc(read, Doc([], map[]), s);
            if d.None? then Failed(Run(read, EMPTY, s)) else Run(read, EMPTY, s) == Done(Idle(d.value))
  {
    DocRun(read, EMPTY, s);
  }
}
