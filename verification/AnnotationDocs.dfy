/** Annotations as they are written down: what is printed, what it means, and that just that is loaded. */
module AnnotationDocs {
  import opened Options
  import opened Annotations
  import opened AnnotationGrammar

  // ----- the written form -----

  datatype SrcValue = OneText(typ: Type, text: string) | ManyTexts(component: Type, texts: seq<string>)

  datatype SrcElement = SrcElement(name: string, value: SrcValue)

  /** An annotation, or an attribute that has nothing to do with annotations. */
  datatype Item = Break(flag: bool) | Written(name: string, id: Option<string>, elements: seq<SrcElement>)

  function PrintTexts(texts: seq<string>): seq<Attr> {
    seq(|texts|, i requires 0 <= i < |texts| => ValueOf(texts[i]))
  }

  function PrintValue(v: SrcValue): seq<Attr> {
    match v
    case OneText(typ, text) => [TypeOf(typ), ValueOf(text)]
    case ManyTexts(component, texts) => [TypeOf(Array), ComponentOf(component)] + PrintTexts(texts)
  }

  function PrintElements(es: seq<SrcElement>): seq<Attr> {
    if es == [] then [] else [Name(es[0].name)] + PrintValue(es[0].value) + PrintElements(es[1..])
  }

  function PrintId(id: Option<string>): seq<Attr> {
    if id.Some? then [Id(id.value)] else []
  }

  function PrintItem(x: Item): seq<Attr> {
    match x
    case Break(flag) => [if flag then Flag else Other]
    case Written(name, id, es) => [Record(name)] + (PrintId(id) + PrintElements(es))
  }

  function Print(doc: seq<Item>): seq<Attr> {
    if doc == [] then [] else PrintItem(doc[0]) + Print(doc[1..])
  }

  // ----- what it means -----

  /** Item `i` is the first annotation with this id, and comes before item `k`. */
  predicate FirstWithId(doc: seq<Item>, i: int, k: int, id: string) {
    && 0 <= i < k <= |doc| && doc[i].Written? && doc[i].id == Some(id)
    && forall j :: 0 <= j < i && doc[j].Written? ==> doc[j].id != Some(id)
  }

  /** A primitive value is what its text reads as, a nested annotation the first one before with that id. */
  ghost predicate ScalarMeans(read: Reader, doc: seq<Item>, out: seq<Data>, k: int, typ: Type, text: string, v: Scalar)
    requires |out| == |doc|
  {
    match typ
    case Array => false
    case Annotation => exists i :: FirstWithId(doc, i, k, text) && v == Nested(out[i])
    case Primitive(_) => v.Prim? && v.typ == typ && read(typ, text) == Some(v.bits)
  }

  ghost predicate ValueMeans(read: Reader, doc: seq<Item>, out: seq<Data>, k: int, x: SrcValue, v: Value)
    requires |out| == |doc|
  {
    match x
    case OneText(typ, text) => v.One? && ScalarMeans(read, doc, out, k, typ, text, v.scalar)
    case ManyTexts(component, texts) =>
      && component != Array && v.Many? && v.component == component && |v.items| == |texts|
      && forall i :: 0 <= i < |texts| ==> ScalarMeans(read, doc, out, k, component, texts[i], v.items[i])
  }

  ghost predicate ItemMeans(read: Reader, doc: seq<Item>, out: seq<Data>, k: int)
    requires |out| == |doc| && 0 <= k < |doc|
  {
    doc[k].Written? ==>
      && out[k].name == doc[k].name && |out[k].elements| == |doc[k].elements|
      && forall i :: 0 <= i < |doc[k].elements| ==>
           && out[k].elements[i].name == doc[k].elements[i].name
           && ValueMeans(read, doc, out, k, doc[k].elements[i].value, out[k].elements[i].value)
  }

  /** `out[k]` is what item `k` stands for. */
  ghost predicate Means(read: Reader, doc: seq<Item>, out: seq<Data>) {
    |out| == |doc| && forall k :: 0 <= k < |doc| ==> ItemMeans(read, doc, out, k)
  }

  /** The annotations without an id, in order. */
  function Unnamed(doc: seq<Item>, out: seq<Data>): seq<Data>
    requires |out| == |doc|
    decreases |doc|
  {
    if doc == [] then []
    else
      var n := |doc| - 1;
      Unnamed(doc[..n], out[..n]) + if doc[n].Written? && doc[n].id.None? then [out[n]] else []
  }

  // ----- one value -----

  /** The same with the ids known so far. */
  predicate Reads(read: Reader, ids: map<string, Data>, typ: Type, text: string, v: Scalar) {
    match typ
    case Array => false
    case Annotation => text in ids && v == Nested(ids[text])
    case Primitive(_) => v.Prim? && v.typ == typ && read(typ, text) == Some(v.bits)
  }

  lemma CreatedExactly(read: Reader, ids: map<string, Data>, typ: Type, text: string, v: Scalar)
    requires typ != Array
    ensures CreateValue(read, typ, text, ids) == Some(v) <==> Reads(read, ids, typ, text, v)
  {
  }

  ghost predicate TextsRead(read: Reader, ids: map<string, Data>, typ: Type, texts: seq<string>, vs: seq<Scalar>) {
    |vs| == |texts| && forall i :: 0 <= i < |texts| ==> Reads(read, ids, typ, texts[i], vs[i])
  }

  ghost predicate ElementReads(read: Reader, ids: map<string, Data>, x: SrcElement, e: Element) {
    e.name == x.name &&
    match x.value
    case OneText(typ, text) => e.value.One? && Reads(read, ids, typ, text, e.value.scalar)
    case ManyTexts(c, texts) =>
      c != Array && e.value.Many? && e.value.component == c && TextsRead(read, ids, c, texts, e.value.items)
  }

  ghost predicate ElementsRead(read: Reader, ids: map<string, Data>, xs: seq<SrcElement>, es: seq<Element>) {
    |es| == |xs| && forall i :: 0 <= i < |xs| ==> ElementReads(read, ids, xs[i], es[i])
  }

  // ----- what is parsed was printed -----

  lemma TextsCons(s: seq<Attr>, more: seq<string>, rest: seq<Attr>)
    requires s != [] && s[0].ValueOf? && s[1..] == PrintTexts(more) + rest
    ensures s == PrintTexts([s[0].text] + more) + rest
  {
    assert PrintTexts([s[0].text] + more) == [s[0]] + PrintTexts(more);
    assert s == [s[0]] + s[1..];
  }

  lemma ReadCons(read: Reader, ids: map<string, Data>, typ: Type, text: string, texts: seq<string>, v: Scalar,
      vs: seq<Scalar>)
    requires Reads(read, ids, typ, text, v) && TextsRead(read, ids, typ, texts, vs)
    ensures TextsRead(read, ids, typ, [text] + texts, [v] + vs)
  {
  }

  lemma {:induction false} ValuesParsed(read: Reader, ids: map<string, Data>, typ: Type, s: seq<Attr>)
    returns (texts: seq<string>)
    requires typ != Array && ParseValues(read, ids, typ, s).Ok?
    ensures var p := ParseValues(read, ids, typ, s);
            s == PrintTexts(texts) + p.rest && TextsRead(read, ids, typ, texts, p.value)
    decreases |s|
  {
    texts := [];
    if s != [] && s[0].ValueOf? {
      var v, p := CreateValue(read, typ, s[0].text, ids), ParseValues(read, ids, typ, s[1..]);
      var more := ValuesParsed(read, ids, typ, s[1..]);
      CreatedExactly(read, ids, typ, s[0].text, v.value);
      TextsCons(s, more, p.rest);
      ReadCons(read, ids, typ, s[0].text, more, v.value, p.value);
      texts := [s[0].text] + more;
    }
  }

  lemma ElementParsed(read: Reader, ids: map<string, Data>, name: string, s: seq<Attr>) returns (x: SrcElement)
    requires ParseElement(read, ids, name, s).Ok?
    ensures var p := ParseElement(read, ids, name, s);
            x.name == name && s == PrintValue(x.value) + p.rest && ElementReads(read, ids, x, p.value)
  {
    if s[0].typ.Array? {
      var texts := ValuesParsed(read, ids, s[1].typ, s[2..]);
      x := SrcElement(name, ManyTexts(s[1].typ, texts));
      assert s == [s[0], s[1]] + s[2..];
    } else {
      x := SrcElement(name, OneText(s[0].typ, s[1].text));
      CreatedExactly(read, ids, s[0].typ, s[1].text, CreateValue(read, s[0].typ, s[1].text, ids).value);
      assert s == [s[0], s[1]] + s[2..];
    }
  }

  lemma ElementsCons(s: seq<Attr>, x: SrcElement, mid: seq<Attr>, more: seq<SrcElement>, rest: seq<Attr>)
    requires s != [] && s[0] == Name(x.name) && s[1..] == PrintValue(x.value) + mid
    requires mid == PrintElements(more) + rest
    ensures s == PrintElements([x] + more) + rest
  {
    assert ([x] + more)[1..] == more;
    assert s == [Name(x.name)] + s[1..];
    assert s == [Name(x.name)] + PrintValue(x.value) + PrintElements(more) + rest;
  }

  lemma ElementsReadCons(read: Reader, ids: map<string, Data>, x: SrcElement, xs: seq<SrcElement>, e: Element,
      es: seq<Element>)
    requires ElementReads(read, ids, x, e) && ElementsRead(read, ids, xs, es)
    ensures ElementsRead(read, ids, [x] + xs, [e] + es)
  {
  }

  lemma {:induction false} ElementsParsed(read: Reader, ids: map<string, Data>, s: seq<Attr>)
    returns (xs: seq<SrcElement>)
    requires ParseElements(read, ids, s).Ok?
    ensures var p := ParseElements(read, ids, s);
            s == PrintElements(xs) + p.rest && ElementsRead(read, ids, xs, p.value)
    decreases |s|
  {
    xs := [];
    if s != [] && s[0].Name? {
      var e := ParseElement(read, ids, s[0].name, s[1..]);
      var p := ParseElements(read, ids, e.rest);
      var x := ElementParsed(read, ids, s[0].name, s[1..]);
      var more := ElementsParsed(read, ids, e.rest);
      ElementsCons(s, x, e.rest, more, p.rest);
      ElementsReadCons(read, ids, x, more, e.value, p.value);
      xs := [x] + more;
    }
  }

  // ----- what is printed is parsed -----

  lemma {:induction false} TextsParse(read: Reader, ids: map<string, Data>, typ: Type, texts: seq<string>,
      vs: seq<Scalar>, rest: seq<Attr>)
    requires typ != Array && TextsRead(read, ids, typ, texts, vs) && (rest == [] || !rest[0].ValueOf?)
    ensures ParseValues(read, ids, typ, PrintTexts(texts) + rest) == Ok(vs, rest)
    decreases |texts|
  {
    var s := PrintTexts(texts) + rest;
    if texts == [] {
      assert s == rest;
    } else {
      assert s[1..] == PrintTexts(texts[1..]) + rest;
      CreatedExactly(read, ids, typ, texts[0], vs[0]);
      TextsParse(read, ids, typ, texts[1..], vs[1..], rest);
      assert [vs[0]] + vs[1..] == vs;
    }
  }

  lemma ElementParses(read: Reader, ids: map<string, Data>, x: SrcElement, e: Element, rest: seq<Attr>)
    requires ElementReads(read, ids, x, e) && (rest == [] || !rest[0].ValueOf?)
    ensures ParseElement(read, ids, x.name, PrintValue(x.value) + rest) == Ok(e, rest)
  {
    var s := PrintValue(x.value) + rest;
    match x.value
    case OneText(typ, text) =>
      CreatedExactly(read, ids, typ, text, e.value.scalar);
      assert s[2..] == rest;
    case ManyTexts(c, texts) =>
      assert s[2..] == PrintTexts(texts) + rest;
      TextsParse(read, ids, c, texts, e.value.items, rest);
  }

  predicate Starts(s: seq<Attr>) {
    s != [] && (s[0].Name? || s[0].ValueOf? || s[0].Id?)
  }

  lemma ElementsUnfold(read: Reader, ids: map<string, Data>, name: string, s: seq<Attr>, e: Element, mid: seq<Attr>,
      es: seq<Element>, rest: seq<Attr>)
    requires ParseElement(read, ids, name, s) == Ok(e, mid) && ParseElements(read, ids, mid) == Ok(es, rest)
    ensures ParseElements(read, ids, [Name(name)] + s) == Ok([e] + es, rest)
  {
    assert ([Name(name)] + s)[1..] == s;
  }

  lemma PrintElementsFirst(xs: seq<SrcElement>, rest: seq<Attr>)
    requires xs != []
    ensures PrintElements(xs) + rest == [Name(xs[0].name)] + (PrintValue(xs[0].value) + (PrintElements(xs[1..]) + rest))
  {
  }

  lemma {:induction false} ElementsParse(read: Reader, ids: map<string, Data>, xs: seq<SrcElement>, es: seq<Element>,
      rest: seq<Attr>)
    requires ElementsRead(read, ids, xs, es) && !Starts(rest)
    ensures ParseElements(read, ids, PrintElements(xs) + rest) == Ok(es, rest)
    decreases |xs|
  {
    if xs == [] {
      assert PrintElements(xs) + rest == rest;
    } else {
      var mid := PrintElements(xs[1..]) + rest;
      ElementsParse(read, ids, xs[1..], es[1..], rest);
      NoValueNext(xs[1..], rest);
      ElementParses(read, ids, xs[0], es[0], mid);
      ElementsUnfold(read, ids, xs[0].name, PrintValue(xs[0].value) + mid, es[0], mid, es[1..], rest);
      PrintElementsFirst(xs, rest);
      assert [es[0]] + es[1..] == es;
    }
  }

  lemma NoValueNext(xs: seq<SrcElement>, rest: seq<Attr>)
    requires !Starts(rest)
    ensures var s := PrintElements(xs) + rest; s != [] ==> !s[0].ValueOf? && !s[0].Id?
  {
  }

  // ----- documents -----

  /** What has been loaded behind the items `doc`, whose annotations are `out`. */
  function Loaded(doc: seq<Item>, out: seq<Data>): Doc
    requires |out| == |doc|
    decreases |doc|
  {
    if doc == [] then Doc([], map[])
    else
      var n := |doc| - 1;
      var before := Loaded(doc[..n], out[..n]);
      if doc[n].Written? then WithAnnotation(before, doc[n].id, out[n]) else before
  }

  ghost predicate ItemReads(read: Reader, doc: seq<Item>, out: seq<Data>, k: nat)
    requires |out| == |doc| && k < |doc|
  {
    doc[k].Written? ==>
      && out[k].name == doc[k].name
      && ElementsRead(read, Loaded(doc[..k], out[..k]).ids, doc[k].elements, out[k].elements)
  }

  ghost predicate DocReads(read: Reader, doc: seq<Item>, out: seq<Data>) {
    |out| == |doc| && forall k :: 0 <= k < |doc| ==> ItemReads(read, doc, out, k)
  }

  lemma LoadedMore(doc: seq<Item>, out: seq<Data>, x: Item, d: Data)
    requires |out| == |doc|
    ensures Loaded(doc + [x], out + [d])
            == if x.Written? then WithAnnotation(Loaded(doc, out), x.id, d) else Loaded(doc, out)
  {
    assert (doc + [x])[..|doc|] == doc && (out + [d])[..|out|] == out;
  }

  lemma DocReadsMore(read: Reader, doc: seq<Item>, out: seq<Data>, x: Item, d: Data)
    requires DocReads(read, doc, out)
    requires x.Written? ==> d.name == x.name && ElementsRead(read, Loaded(doc, out).ids, x.elements, d.elements)
    ensures DocReads(read, doc + [x], out + [d])
  {
    var more, outs := doc + [x], out + [d];
    forall k | 0 <= k < |more|
      ensures ItemReads(read, more, outs, k)
    {
      assert more[..k] == doc[..k] && outs[..k] == out[..k];
      if k < |doc| { assert ItemReads(read, doc, out, k); } else { assert doc[..k] == doc && out[..k] == out; }
    }
  }

  lemma {:induction false} PrintMore(doc: seq<Item>, x: Item)
    ensures Print(doc + [x]) == Print(doc) + PrintItem(x)
    decreases |doc|
  {
    if doc == [] {
      assert doc + [x] == [x] && [x][1..] == [];
    } else {
      PrintMore(doc[1..], x);
      assert (doc + [x])[1..] == doc[1..] + [x];
    }
  }

  lemma IdPrinted(s: seq<Attr>)
    ensures s == PrintId(ParseId(s).0) + ParseId(s).1
  {
  }

  lemma FirstAndRest(s: seq<Attr>, a: seq<Attr>, b: seq<Attr>, rest: seq<Attr>)
    requires s != [] && s[1..] == a + (b + rest)
    ensures s == [s[0]] + (a + b) + rest
  {
  }

  /** A written annotation at the beginning, as the parser takes it apart. */
  lemma ItemPrinted(s: seq<Attr>, es: seq<SrcElement>, rest: seq<Attr>)
    requires s != [] && s[0].Record? && ParseId(s[1..]).1 == PrintElements(es) + rest
    ensures s == PrintItem(Written(s[0].name, ParseId(s[1..]).0, es)) + rest
  {
    IdPrinted(s[1..]);
    FirstAndRest(s, PrintId(ParseId(s[1..]).0), PrintElements(es), rest);
  }

  /** Whatever is parsed is the print of a document that reads as what was parsed. */
  lemma {:induction false} DocParsed(read: Reader, doc0: seq<Item>, out0: seq<Data>, s: seq<Attr>)
    returns (doc: seq<Item>, out: seq<Data>)
    requires DocReads(read, doc0, out0) && ParseDoc(read, Loaded(doc0, out0), s).Some?
    ensures DocReads(read, doc, out) && Print(doc) == Print(doc0) + s
    ensures ParseDoc(read, Loaded(doc0, out0), s) == Some(Loaded(doc, out))
    decreases |s|
  {
    doc, out := doc0, out0;
    if s != [] {
      var x, d, rest := ParsedItem(read, Loaded(doc0, out0), s);
      LoadedMore(doc0, out0, x, d);
      DocReadsMore(read, doc0, out0, x, d);
      PrintMore(doc0, x);
      doc, out := DocParsed(read, doc0 + [x], out0 + [d], rest);
      JoinAttrs(Print(doc0), PrintItem(x), rest);
    } else {
      assert Print(doc0) + s == Print(doc0);
    }
  }

  lemma JoinAttrs(a: seq<Attr>, b: seq<Attr>, c: seq<Attr>)
    ensures a + b + c == a + (b + c)
  {
  }

  function Behind(before: Doc, x: Item, d: Data): Doc {
    if x.Written? then WithAnnotation(before, x.id, d) else before
  }

  lemma ParsedItem(read: Reader, before: Doc, s: seq<Attr>) returns (x: Item, d: Data, rest: seq<Attr>)
    requires s != [] && ParseDoc(read, before, s).Some?
    ensures |rest| < |s| && s == PrintItem(x) + rest
    ensures ParseDoc(read, before, s) == ParseDoc(read, Behind(before, x, d), rest)
    ensures x.Written? ==> d.name == x.name && ElementsRead(read, before.ids, x.elements, d.elements)
  {
    if s[0].Record? {
      var (id, s1) := ParseId(s[1..]);
      var es := ParseElements(read, before.ids, s1);
      var xs := ElementsParsed(read, before.ids, s1);
      ItemPrinted(s, xs, es.rest);
      x, d, rest := Written(s[0].name, id, xs), Data(s[0].name, es.value), es.rest;
    } else {
      x, d, rest := Break(s[0].Flag?), Data("", []), s[1..];
      assert s == [s[0]] + s[1..];
    }
  }

  lemma NoStart(doc: seq<Item>)
    ensures !Starts(Print(doc))
  {
  }

  lemma IdParses(id: Option<string>, body: seq<Attr>)
    requires body != [] ==> !body[0].Id?
    ensures ParseId(PrintId(id) + body) == (id, body)
  {
    if id.None? { assert PrintId(id) + body == body; } else { assert (PrintId(id) + body)[1..] == body; }
  }

  lemma RecordParses(read: Reader, before: Doc, name: string, id: Option<string>, body: seq<Attr>, es: seq<Element>,
      rest: seq<Attr>)
    requires ParseElements(read, before.ids, body) == Ok(es, rest) && (body != [] ==> !body[0].Id?)
    ensures ParseDoc(read, before, [Record(name)] + (PrintId(id) + body))
            == ParseDoc(read, WithAnnotation(before, id, Data(name, es)), rest)
  {
    var s := [Record(name)] + (PrintId(id) + body);
    assert s[1..] == PrintId(id) + body;
    IdParses(id, body);
  }

  lemma BreakParses(read: Reader, before: Doc, flag: bool, rest: seq<Attr>)
    ensures ParseDoc(read, before, PrintItem(Break(flag)) + rest) == ParseDoc(read, before, rest)
  {
    assert (PrintItem(Break(flag)) + rest)[1..] == rest;
  }

  lemma Rejoin(a: seq<Attr>, b: seq<Attr>, first: Attr, rest: seq<Attr>)
    ensures [first] + (a + b) + rest == [first] + (a + (b + rest))
  {
  }

  lemma ItemParses(read: Reader, before: Doc, x: Item, d: Data, rest: seq<Attr>)
    requires !Starts(rest)
    requires x.Written? ==> d.name == x.name && ElementsRead(read, before.ids, x.elements, d.elements)
    ensures ParseDoc(read, before, PrintItem(x) + rest) == ParseDoc(read, Behind(before, x, d), rest)
  {
    match x
    case Break(flag) => BreakParses(read, before, flag, rest);
    case Written(name, id, es) =>
      var body := PrintElements(es) + rest;
      ElementsParse(read, before.ids, es, d.elements, rest);
      NoValueNext(es, rest);
      RecordParses(read, before, name, id, body, d.elements, rest);
      Rejoin(PrintId(id), PrintElements(es), Record(name), rest);
  }

  /** One more item, in the terms of the documents before and behind it. */
  lemma DocParsesOne(read: Reader, doc: seq<Item>, out: seq<Data>, k: nat)
    requires DocReads(read, doc, out) && k < |doc|
    ensures ParseDoc(read, Loaded(doc[..k], out[..k]), Print(doc[k..]))
            == ParseDoc(read, Loaded(doc[..k + 1], out[..k + 1]), Print(doc[k + 1..]))
  {
    assert ItemReads(read, doc, out, k);
    assert doc[k..][1..] == doc[k + 1..];
    NoStart(doc[k + 1..]);
    ItemParses(read, Loaded(doc[..k], out[..k]), doc[k], out[k], Print(doc[k + 1..]));
    LoadedNext(doc, out, k);
  }

  lemma LoadedNext(doc: seq<Item>, out: seq<Data>, k: nat)
    requires |out| == |doc| && k < |doc|
    ensures Loaded(doc[..k + 1], out[..k + 1]) == Behind(Loaded(doc[..k], out[..k]), doc[k], out[k])
  {
    assert doc[..k + 1] == doc[..k] + [doc[k]] && out[..k + 1] == out[..k] + [out[k]];
    LoadedMore(doc[..k], out[..k], doc[k], out[k]);
  }

  /** The print of a document that reads is parsed, as just that. */
  lemma {:induction false} DocParses(read: Reader, doc: seq<Item>, out: seq<Data>, k: nat)
    requires DocReads(read, doc, out) && k <= |doc|
    ensures ParseDoc(read, Loaded(doc[..k], out[..k]), Print(doc[k..])) == Some(Loaded(doc, out))
    decreases |doc| - k
  {
    if k == |doc| {
      assert doc[..k] == doc && out[..k] == out && Print(doc[k..]) == [];
    } else {
      DocParsesOne(read, doc, out, k);
      DocParses(read, doc, out, k + 1);
    }
  }

  // ----- what the ids stand for -----

  /** An id stands for the first annotation that was given it. */
  lemma {:induction false} KnownExactly(doc: seq<Item>, out: seq<Data>, k: nat, id: string)
    requires |out| == |doc| && k <= |doc|
    ensures var ids := Loaded(doc[..k], out[..k]).ids;
            && (id in ids <==> exists i :: FirstWithId(doc, i, k, id))
            && forall i :: FirstWithId(doc, i, k, id) ==> id in ids && ids[id] == out[i]
    decreases k
  {
    if k > 0 {
      var n := k - 1;
      KnownExactly(doc, out, n, id);
      assert doc[..k] == doc[..n] + [doc[n]] && out[..k] == out[..n] + [out[n]];
      LoadedMore(doc[..n], out[..n], doc[n], out[n]);
      KnownStep(doc, n, id);
      var ids := Loaded(doc[..n], out[..n]).ids;
      if i :| FirstWithId(doc, i, n, id) { assert id in ids; }
      if i :| FirstWithId(doc, i, k, id) {
        assert FirstWithId(doc, i, n, id) || (doc[n].Written? && doc[n].id == Some(id));
      }
    }
  }

  lemma KnownStep(doc: seq<Item>, n: nat, id: string)
    requires n < |doc|
    ensures forall i :: FirstWithId(doc, i, n, id) ==> FirstWithId(doc, i, n + 1, id)
    ensures forall i :: FirstWithId(doc, i, n + 1, id) ==>
              FirstWithId(doc, i, n, id)
              || (i == n && doc[n].Written? && doc[n].id == Some(id) && !exists j :: FirstWithId(doc, j, n, id))
    ensures doc[n].Written? && doc[n].id == Some(id) && (!exists j :: FirstWithId(doc, j, n, id)) ==>
              FirstWithId(doc, n, n + 1, id)
  {
    if doc[n].Written? && doc[n].id == Some(id) && !exists j :: FirstWithId(doc, j, n, id) {
      if j :| 0 <= j < n && doc[j].Written? && doc[j].id == Some(id) { var i := FirstOne(doc, n, id, j); }
    }
  }

  lemma FirstOne(doc: seq<Item>, n: nat, id: string, j: nat) returns (i: nat)
    requires j < n <= |doc| && doc[j].Written? && doc[j].id == Some(id)
    ensures FirstWithId(doc, i, n, id)
    decreases j
  {
    i := j;
    if k :| 0 <= k < j && doc[k].Written? && doc[k].id == Some(id) { i := FirstOne(doc, n, id, k); }
  }

  lemma ScalarExactly(read: Reader, doc: seq<Item>, out: seq<Data>, k: nat, typ: Type, text: string, v: Scalar)
    requires |out| == |doc| && k < |doc|
    ensures ScalarMeans(read, doc, out, k, typ, text, v) <==>
            Reads(read, Loaded(doc[..k], out[..k]).ids, typ, text, v)
  {
    KnownExactly(doc, out, k, text);
  }

  lemma ElementExactly(read: Reader, doc: seq<Item>, out: seq<Data>, k: nat, x: SrcElement, e: Element)
    requires |out| == |doc| && k < |doc|
    ensures e.name == x.name && ValueMeans(read, doc, out, k, x.value, e.value) <==>
            ElementReads(read, Loaded(doc[..k], out[..k]).ids, x, e)
  {
    forall typ, text, v
      ensures ScalarMeans(read, doc, out, k, typ, text, v) <==>
              Reads(read, Loaded(doc[..k], out[..k]).ids, typ, text, v)
    {
      ScalarExactly(read, doc, out, k, typ, text, v);
    }
  }

  lemma MeansExactly(read: Reader, doc: seq<Item>, out: seq<Data>)
    ensures Means(read, doc, out) <==> DocReads(read, doc, out)
  {
    if |out| == |doc| {
      forall k | 0 <= k < |doc|
        ensures ItemMeans(read, doc, out, k) <==> ItemReads(read, doc, out, k)
      {
        ItemExactly(read, doc, out, k);
      }
    }
  }

  lemma ItemExactly(read: Reader, doc: seq<Item>, out: seq<Data>, k: nat)
    requires |out| == |doc| && k < |doc|
    ensures ItemMeans(read, doc, out, k) <==> ItemReads(read, doc, out, k)
  {
    if doc[k].Written? && |out[k].elements| == |doc[k].elements| {
      forall i | 0 <= i < |doc[k].elements|
        ensures var x, e := doc[k].elements[i], out[k].elements[i];
                e.name == x.name && ValueMeans(read, doc, out, k, x.value, e.value) <==>
                ElementReads(read, Loaded(doc[..k], out[..k]).ids, x, e)
      {
        ElementExactly(read, doc, out, k, doc[k].elements[i], out[k].elements[i]);
      }
    }
  }

  lemma {:induction false} UnnamedLoaded(doc: seq<Item>, out: seq<Data>)
    requires |out| == |doc|
    ensures Loaded(doc, out).annotations == Unnamed(doc, out)
    decreases |doc|
  {
    if doc != [] { UnnamedLoaded(doc[..|doc| - 1], out[..|doc| - 1]); }
  }

  // ----- the result -----

  /** The stream is the print of a document that means these annotations. */
  ghost predicate Says(read: Reader, s: seq<Attr>, annotations: seq<Data>) {
    exists doc, out :: Print(doc) == s && Means(read, doc, out) && Unnamed(doc, out) == annotations
  }

  /** A stream is parsed exactly if it is the print of a document that means something, and as what it means. */
  lemma ParsedExactly(read: Reader, s: seq<Attr>, annotations: seq<Data>)
    ensures Says(read, s, annotations) <==>
            var d := ParseDoc(read, Doc([], map[]), s); d.Some? && d.value.annotations == annotations
  {
    var d := ParseDoc(read, Doc([], map[]), s);
    if d.Some? {
      var doc, out := DocParsed(read, [], [], s);
      assert Print([]) + s == s;
      MeansExactly(read, doc, out);
      UnnamedLoaded(doc, out);
    }
    if Says(read, s, annotations) {
      var doc, out :| Print(doc) == s && Means(read, doc, out) && Unnamed(doc, out) == annotations;
      MeansExactly(read, doc, out);
      UnnamedLoaded(doc, out);
      DocParses(read, doc, out, 0);
      assert doc[0..] == doc && doc[..0] == [] && out[..0] == [];
    }
  }

  lemma SaidIs(read: Reader, s: seq<Attr>, annotations: seq<Data>)
    ensures ParseDoc(read, Doc([], map[]), s).None? ==> forall said :: !Says(read, s, said)
    ensures var d := ParseDoc(read, Doc([], map[]), s);
            d.Some? && d.value.annotations == annotations ==>
              forall said :: Says(read, s, said) <==> said == annotations
  {
    forall said
      ensures Says(read, s, said) <==>
              var d := ParseDoc(read, Doc([], map[]), s); d.Some? && d.value.annotations == said
    {
      ParsedExactly(read, s, said);
    }
  }

  lemma NothingSaid(read: Reader, s: seq<Attr>)
    requires ParseDoc(read, Doc([], map[]), s).None?
    ensures forall said :: !Says(read, s, said)
  {
    SaidIs(read, s, []);
  }

  /**
   * The assembler's use of the metadata: every attribute in turn, then the validation. The annotations that are loaded
   * are those that the stream says, and it is refused exactly if it says none.
   */
  method Load(read: Reader, s: seq<Attr>) returns (ok: bool, annotations: seq<Data>)
    ensures ok <==> ParseDoc(read, Doc([], map[]), s).Some?
    ensures ok ==> annotations == ParseDoc(read, Doc([], map[]), s).value.annotations
    ensures ok <==> exists said :: Says(read, s, said)
    ensures ok ==> forall said :: Says(read, s, said) <==> said == annotations
  {
    BuildersReadTheGrammar(read, s);
    var m := new AnnotationMetadata(read);
    annotations := [];
    for i := 0 to |s|
      invariant Valid(m.View()) && m.read == read && Run(read, EMPTY, s) == Run(read, m.View(), s[i..])
    {
      assert s[i..][1..] == s[i + 1..];
      ok := m.Meet(s[i]);
      if !ok {
        NothingSaid(read, s);
        return;
      }
    }
    assert s[|s|..] == [];
    ok := m.ValidateData();
    annotations := m.annotations;
    SaidIs(read, s, annotations);
    assert ok ==> Says(read, s, annotations);
  }
}
