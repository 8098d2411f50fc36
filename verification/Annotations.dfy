/** Annotation metadata: two nested builders driven by a stream of attributes. */
module Annotations {
  import opened Options

  datatype Type = Array | Annotation | Primitive(code: int)

  datatype Scalar = Prim(typ: Type, bits: int) | Nested(data: Data)

  datatype Value = One(scalar: Scalar) | Many(component: Type, items: seq<Scalar>)

  datatype Element = Element(name: string, value: Value)

  datatype Data = Data(name: string, elements: seq<Element>)

  /** Attributes without a value and attributes that have nothing to do with annotations both end an annotation. */
  datatype Attr =
    | Flag
    | Other
    | Record(name: string)
    | Id(id: string)
    | Name(name: string)
    | TypeOf(typ: Type)
    | ComponentOf(typ: Type)
    | ValueOf(text: string)

  /** How the text of a primitive value is read; `None` is malformed or out of range. */
  type Reader = (Type, string) -> Option<int>

  datatype ElementBuilder = ElementBuilder(active: bool, name: string, typ: Option<Type>, component: Option<Type>,
      values: seq<Scalar>)

  datatype AnnotationBuilder = AnnotationBuilder(active: bool, name: string, id: Option<string>, elements: seq<Element>)

  datatype State = State(ann: AnnotationBuilder, el: ElementBuilder, annotations: seq<Data>, ids: map<string, Data>)

  const NO_ELEMENT: ElementBuilder := ElementBuilder(false, "", None, None, [])
  const NO_ANNOTATION: AnnotationBuilder := AnnotationBuilder(false, "", None, [])
  const EMPTY: State := State(NO_ANNOTATION, NO_ELEMENT, [], map[])

  /** An error is reported; `Crash` is a read of a type that was never given, or a nested array type. */
  datatype Outcome = Done(st: State) | Error | Crash

  // ----- the element builder -----

  predicate IsArray(el: ElementBuilder) {
    el.typ == Some(Array)
  }

  predicate IsCompleted(el: ElementBuilder) {
    el.typ.Some? && if IsArray(el) then el.component.Some? else el.values != []
  }

  function CreateElement(el: ElementBuilder): Element
    requires IsCompleted(el)
  {
    Element(el.name, if IsArray(el) then Many(el.component.value, el.values) else One(el.values[0]))
  }

  /** The type a value of this element is read as. */
  function ScalarType(el: ElementBuilder): Type
    requires el.typ.Some? && (IsArray(el) ==> el.component.Some?)
  {
    if IsArray(el) then el.component.value else el.typ.value
  }

  function CreateValue(read: Reader, typ: Type, text: string, ids: map<string, Data>): Option<Scalar>
    requires !typ.Array?
  {
    if typ.Annotation? then (if text in ids then Some(Nested(ids[text])) else None)
    else
      var bits := read(typ, text);
      if bits.Some? then Some(Prim(typ, bits.value)) else None
  }

  // ----- flushing -----

  function FlushElement(st: State): State
    requires IsCompleted(st.el)
  {
    st.(ann := st.ann.(elements := st.ann.elements + [CreateElement(st.el)]), el := NO_ELEMENT)
  }

  /** An id that is already known keeps its first annotation. */
  function WithId(ids: map<string, Data>, id: string, data: Data): map<string, Data> {
    if id in ids then ids else ids[id := data]
  }

  function FlushAnnotation(st: State): State {
    var st1 := if st.el.active && IsCompleted(st.el) then FlushElement(st) else st;
    var data := Data(st1.ann.name, st1.ann.elements);
    if st1.ann.id.Some? then st1.(ann := NO_ANNOTATION, ids := WithId(st1.ids, st1.ann.id.value, data))
    else st1.(ann := NO_ANNOTATION, annotations := st1.annotations + [data])
  }

  predicate Unfinished(st: State) {
    st.el.active && !IsCompleted(st.el)
  }

  /** The end of the current annotation, if there is one. */
  function Ended(st: State): Outcome {
    if Unfinished(st) then Error else Done(if st.ann.active then FlushAnnotation(st) else st)
  }

  // ----- one attribute -----

  function StepRecord(st: State, name: string): Outcome {
    if Unfinished(st) then Error
    else
      var st1 := if st.ann.active then FlushAnnotation(st) else st;
      Done(st1.(ann := st1.ann.(active := true, name := name)))
  }

  function StepId(st: State, id: string): Outcome {
    if !st.ann.active || st.el.active || st.ann.id.Some? then Error
    else Done(st.(ann := st.ann.(id := Some(id))))
  }

  function StepName(st: State, name: string): Outcome {
    if !st.ann.active || Unfinished(st) then Error
    else
      var st1 := if st.el.active then FlushElement(st) else st;
      Done(st1.(el := st1.el.(active := true, name := name)))
  }

  function StepType(st: State, typ: Type): Outcome {
    if !st.el.active || st.el.typ.Some? then Error else Done(st.(el := st.el.(typ := Some(typ))))
  }

  function StepComponent(st: State, typ: Type): Outcome {
    if !st.el.active then Error
    else if st.el.typ.None? then Crash
    else if !IsArray(st.el) || st.el.component.Some? then Error
    else if typ.Array? then Crash
    else Done(st.(el := st.el.(component := Some(typ))))
  }

  function StepValue(read: Reader, st: State, text: string): Outcome {
    if !st.el.active || st.el.typ.None? || (IsArray(st.el) && st.el.component.None?) then Error
    else if !IsArray(st.el) && IsCompleted(st.el) then Error
    else if ScalarType(st.el).Array? then Crash
    else
      var v := CreateValue(read, ScalarType(st.el), text, st.ids);
      if v.None? then Error else Done(st.(el := st.el.(values := st.el.values + [v.value])))
  }

  function Step(read: Reader, st: State, a: Attr): Outcome {
    match a
    case Flag => Ended(st)
    case Other => Ended(st)
    case Record(name) => StepRecord(st, name)
    case Id(id) => StepId(st, id)
    case Name(name) => StepName(st, name)
    case TypeOf(typ) => StepType(st, typ)
    case ComponentOf(typ) => StepComponent(st, typ)
    case ValueOf(text) => StepValue(read, st, text)
  }

  /** A stream, and then the final validation. */
  function Run(read: Reader, st: State, s: seq<Attr>): Outcome
    decreases |s|
  {
    if s == [] then Ended(st)
    else
      var next := Step(read, st, s[0]);
      if next.Done? then Run(read, next.st, s[1..]) else next
  }

  // ----- the class -----

  /** An active element builder sits inside an active annotation builder; inactive builders are empty. */
  predicate Valid(st: State) {
    && (st.el.active ==> st.ann.active)
    && (!st.el.active ==> st.el == NO_ELEMENT) && (!st.ann.active ==> st.ann == NO_ANNOTATION)
    && (st.el.component.Some? ==> IsArray(st.el) && !st.el.component.value.Array?)
    && (st.el.typ.None? ==> st.el.values == [])
  }

  lemma StepKeepsValid(read: Reader, st: State, a: Attr)
    requires Valid(st)
    ensures Step(read, st, a).Done? ==> Valid(Step(read, st, a).st)
  {
  }

  class AnnotationMetadata {
    const read: Reader
    var ann: AnnotationBuilder
    var el: ElementBuilder
    var annotations: seq<Data>
    var ids: map<string, Data>

    constructor (read: Reader)
      ensures this.read == read && View() == EMPTY
    {
      this.read := read;
      ann, el, annotations, ids := NO_ANNOTATION, NO_ELEMENT, [], map[];
    }

    ghost function View(): State
      reads this
    {
      State(ann, el, annotations, ids)
    }

    /** No error and the step's state, or an error and nothing changed. */
    twostate predicate Follows(out: Outcome, ok: bool)
      reads this
    {
      ok == out.Done? && View() == if out.Done? then out.st else old(View())
    }

    method ResetAnnotationElementBuilder()
      requires el.active && IsCompleted(el)
      modifies this`ann, this`el
      ensures View() == FlushElement(old(View()))
    {
      ann := ann.(elements := ann.elements + [CreateElement(el)]);
      el := NO_ELEMENT;
    }

    method ResetAnnotationBuilder()
      requires ann.active
      modifies this
      ensures View() == FlushAnnotation(old(View()))
    {
      if el.active && IsCompleted(el) { ResetAnnotationElementBuilder(); }
      if ann.id.Some? {
        if ann.id.value !in ids { ids := ids[ann.id.value := Data(ann.name, ann.elements)]; }
      } else {
        annotations := annotations + [Data(ann.name, ann.elements)];
      }
      ann := NO_ANNOTATION;
    }

    method EndAnnotation() returns (ok: bool)
      modifies this
      ensures Follows(Ended(old(View())), ok)
    {
      if el.active && !IsCompleted(el) {
        return false;
      }
      if ann.active { ResetAnnotationBuilder(); }
      return true;
    }

    method MeetExpRecordAttribute(name: string) returns (ok: bool)
      modifies this
      ensures Follows(StepRecord(old(View()), name), ok)
    {
      if el.active && !IsCompleted(el) {
        return false;
      }
      if ann.active { ResetAnnotationBuilder(); }
      ann := ann.(active := true, name := name);
      return true;
    }

    method MeetExpIdAttribute(id: string) returns (ok: bool)
      modifies this
      ensures Follows(StepId(old(View()), id), ok)
    {
      if !ann.active || el.active || ann.id.Some? {
        return false;
      }
      ann := ann.(id := Some(id));
      return true;
    }

    method MeetExpElementNameAttribute(name: string) returns (ok: bool)
      modifies this
      ensures Follows(StepName(old(View()), name), ok)
    {
      if !ann.active || (el.active && !IsCompleted(el)) {
        return false;
      }
      if el.active { ResetAnnotationElementBuilder(); }
      el := el.(active := true, name := name);
      return true;
    }

    method MeetExpElementTypeAttribute(typ: Type) returns (ok: bool)
      modifies this
      ensures Follows(StepType(old(View()), typ), ok)
    {
      if !el.active || el.typ.Some? {
        return false;
      }
      el := el.(typ := Some(typ));
      return true;
    }

    method MeetExpElementArrayComponentTypeAttribute(typ: Type) returns (ok: bool)
      modifies this
      ensures Follows(StepComponent(old(View()), typ), ok)
    {
      if !el.active || el.typ.None? || !IsArray(el) || el.component.Some? || typ.Array? {
        return false;
      }
      el := el.(component := Some(typ));
      return true;
    }

    method MeetExpElementValueAttribute(text: string) returns (ok: bool)
      requires Valid(View())
      modifies this
      ensures Follows(StepValue(read, old(View()), text), ok)
    {
      if !el.active || el.typ.None? || (IsArray(el) && el.component.None?) || (!IsArray(el) && IsCompleted(el)) {
        return false;
      }
      var v := CreateValue(read, ScalarType(el), text, ids);
      if v.None? {
        return false;
      }
      el := el.(values := el.values + [v.value]);
      return true;
    }

    /** `Store` for flags, `StoreValue` for the rest. */
    method Meet(a: Attr) returns (ok: bool)
      requires Valid(View())
      modifies this
      ensures Follows(Step(read, old(View()), a), ok) && Valid(View())
    {
      StepKeepsValid(read, View(), a);
      match a
      case Flag => ok := EndAnnotation();
      case Other => ok := EndAnnotation();
      case Record(name) => ok := MeetExpRecordAttribute(name);
      case Id(id) => ok := MeetExpIdAttribute(id);
      case Name(name) => ok := MeetExpElementNameAttribute(name);
      case TypeOf(typ) => ok := MeetExpElementTypeAttribute(typ);
      case ComponentOf(typ) => ok := MeetExpElementArrayComponentTypeAttribute(typ);
      case ValueOf(text) => ok := MeetExpElementValueAttribute(text);
    }

    method ValidateData() returns (ok: bool)
      modifies this
      ensures Follows(Ended(old(View())), ok)
    {
      ok := EndAnnotation();
    }
  }
}
