/** The generic serialize/deserialize walk (include/mist/serialize.hpp)
    over an abstract archive. A value is a tree: arithmetic, string,
    vec_t and arithmetic-vector leaves, compound values (a struct with
    named fields) and vectors of compound values. serialize turns it into
    the sequence of archive calls it makes, as Events; deserialize is
    guided by the type of its target (a Shape) and replays those calls
    against an archive that hands back, call by call, what was written. */
module Serialization {
  import opened Wrappers

  /** An arithmetic value: an integral or a floating one. */
  datatype Number = Int(i: int) | Real(r: real)

  /** A value serialize can walk. */
  datatype Value =
    | Scalar(n: Number)
    | Str(s: string)
    | Vec(items: seq<Number>)             // vec_t<T, N>
    | NumberVector(items: seq<Number>)    // std::vector<T>, T arithmetic
    | Compound(fields: seq<Field>)        // a struct with named fields
    | CompoundVector(elements: seq<Element>)

  /** One element of a vector of compound values: a struct's fields. */
  datatype Element = Element(fields: seq<Field>)

  /** One entry of a struct's field list: its name and its value. */
  datatype Field = Field(name: string, value: Value)

  /** The type of a deserialize target. The number of components of a
      vec_t and the field names of a struct are part of the type. */
  datatype Shape =
    | ScalarShape
    | StrShape
    | VecShape(n: nat)
    | NumberVectorShape
    | CompoundShape(fields: seq<FieldShape>)
    | CompoundVectorShape(element: seq<FieldShape>)

  datatype FieldShape = FieldShape(name: string, shape: Shape)

  /** One archive call made by serialize. */
  datatype Event =
    | WriteScalar(name: string, n: Number)
    | WriteString(name: string, s: string)
    | WriteVec(name: string, items: seq<Number>)
    | WriteScalarVector(name: string, items: seq<Number>)
    | BeginGroup(name: string)
    | EndGroup
    | BeginCompoundVector(name: string, size: nat)
    | BeginCompoundVectorElement(index: nat)
    | EndCompoundVectorElement
    | EndCompoundVector

  // ---------------------------------------------------------------------
  // Values and their types
  // ---------------------------------------------------------------------

  /** v is a value of type shape. */
  predicate Conforms(v: Value, shape: Shape)
    decreases v
  {
    match shape
    case ScalarShape => v.Scalar?
    case StrShape => v.Str?
    case VecShape(n) => v.Vec? && |v.items| == n
    case NumberVectorShape => v.NumberVector?
    case CompoundShape(fs) => v.Compound? && FieldsConform(v.fields, fs)
    case CompoundVectorShape(fs) => v.CompoundVector? && ElementsConform(v.elements, fs)
  }

  /** The fields carry the names of the field list, in order, and values
      of the fields' types. */
  predicate FieldsConform(fields: seq<Field>, fs: seq<FieldShape>)
    decreases fields
  {
    |fields| == |fs| &&
    (fields != [] ==>
      fields[0].name == fs[0].name && Conforms(fields[0].value, fs[0].shape) && FieldsConform(fields[1..], fs[1..]))
  }

  predicate ElementsConform(elements: seq<Element>, fs: seq<FieldShape>)
    decreases elements
  {
    elements != [] ==> FieldsConform(elements[0].fields, fs) && ElementsConform(elements[1..], fs)
  }

  // ---------------------------------------------------------------------
  // serialize
  // ---------------------------------------------------------------------

  /** serialize(ar, name, value): the archive calls it makes. */
  function Serialize(name: string, v: Value): (r: seq<Event>)
    decreases v
  {
    match v
    case Scalar(n) => [WriteScalar(name, n)]
    case Str(s) => [WriteString(name, s)]
    case Vec(items) => [WriteVec(name, items)]
    case NumberVector(items) => [WriteScalarVector(name, items)]
    case Compound(fields) => [BeginGroup(name)] + SerializeFields(fields) + [EndGroup]
    case CompoundVector(elements) =>
      [BeginCompoundVector(name, |elements|)] + SerializeElements(elements, 0) + [EndCompoundVector]
  }

  /** The fold over a struct's fields, in declared order. */
  function SerializeFields(fields: seq<Field>): seq<Event>
    decreases fields
  {
    if fields == [] then [] else Serialize(fields[0].name, fields[0].value) + SerializeFields(fields[1..])
  }

  /** The loop over a vector of compound values, from index i. */
  function SerializeElements(elements: seq<Element>, i: nat): seq<Event>
    decreases elements
  {
    if elements == [] then []
    else [BeginCompoundVectorElement(i)] + SerializeFields(elements[0].fields) + [EndCompoundVectorElement]
         + SerializeElements(elements[1..], i + 1)
  }

  /** The leaves make one archive call, under the name they are given. */
  lemma {:induction false} LeafCalls(name: string, v: Value)
    requires !v.Compound? && !v.CompoundVector?
    ensures |Serialize(name, v)| == 1 && Serialize(name, v)[0].name == name
    ensures Serialize(name, v)[0] == match v
      case Scalar(n) => WriteScalar(name, n)
      case Str(s) => WriteString(name, s)
      case Vec(items) => WriteVec(name, items)
      case NumberVector(items) => WriteScalarVector(name, items)
      case _ => EndGroup
  {
  }

  // ---------------------------------------------------------------------
  // Nesting
  // ---------------------------------------------------------------------

  /** How an event moves the nesting depth: +1 for a begin, -1 for an end. */
  function DepthChange(e: Event): int
  {
    match e
    case BeginGroup(_) => 1
    case BeginCompoundVector(_, _) => 1
    case BeginCompoundVectorElement(_) => 1
    case EndGroup => -1
    case EndCompoundVectorElement => -1
    case EndCompoundVector => -1
    case _ => 0
  }

  /** Started at depth d, the events never close below depth 0 and end
      at depth e. */
  predicate NestedFrom(evs: seq<Event>, d: nat, e: nat)
    decreases |evs|
  {
    if evs == [] then d == e
    else d + DepthChange(evs[0]) >= 0 && NestedFrom(evs[1..], d + DepthChange(evs[0]), e)
  }

  /** Every begin is matched by a later end, and no end comes first. */
  predicate ProperlyNested(evs: seq<Event>)
  {
    NestedFrom(evs, 0, 0)
  }

  lemma {:induction false} NestedAppend(a: seq<Event>, b: seq<Event>, d: nat, e: nat, f: nat)
    requires NestedFrom(a, d, e) && NestedFrom(b, e, f)
    ensures NestedFrom(a + b, d, f)
    decreases |a|
  {
    if a == [] {
      assert a + b == b;
    } else {
      assert (a + b)[0] == a[0] && (a + b)[1..] == a[1..] + b;
      NestedAppend(a[1..], b, d + DepthChange(a[0]), e, f);
    }
  }

  /** Nested events stay nested at any depth. */
  lemma {:induction false} NestedDeeper(evs: seq<Event>, d: nat, e: nat, k: nat)
    requires NestedFrom(evs, d, e)
    ensures NestedFrom(evs, d + k, e + k)
    decreases |evs|
  {
    if evs != [] {
      NestedDeeper(evs[1..], d + DepthChange(evs[0]), e, k);
    }
  }

  /** A begin event, properly nested events and an end event. */
  lemma {:induction false} Bracketed(open: Event, body: seq<Event>, close: Event)
    requires DepthChange(open) == 1 && DepthChange(close) == -1 && ProperlyNested(body)
    ensures ProperlyNested([open] + body + [close])
  {
    NestedDeeper(body, 0, 0, 1);
    assert NestedFrom([close], 1, 0) by {
      assert [close][1..] == [];
    }
    NestedAppend(body, [close], 1, 1, 0);
    assert ([open] + (body + [close]))[1..] == body + [close];
    assert [open] + body + [close] == [open] + (body + [close]);
  }

  /** The calls serialize makes are properly nested: every begin_group,
      begin_compound_vector and begin_compound_vector_element is closed
      by its end call, innermost first. */
  lemma {:induction false} SerializeNested(name: string, v: Value)
    ensures ProperlyNested(Serialize(name, v))
    decreases v, 2
  {
    match v
    case Scalar(_) =>
    case Str(_) =>
    case Vec(_) =>
    case NumberVector(_) =>
    case Compound(fields) =>
      FieldsNested(fields);
      Bracketed(BeginGroup(name), SerializeFields(fields), EndGroup);
    case CompoundVector(elements) =>
      ElementsNested(elements, 0);
      Bracketed(BeginCompoundVector(name, |elements|), SerializeElements(elements, 0), EndCompoundVector);
  }

  lemma {:induction false} FieldsNested(fields: seq<Field>)
    ensures ProperlyNested(SerializeFields(fields))
    decreases fields, 1
  {
    if fields != [] {
      SerializeNested(fields[0].name, fields[0].value);
      FieldsNested(fields[1..]);
      NestedAppend(Serialize(fields[0].name, fields[0].value), SerializeFields(fields[1..]), 0, 0, 0);
    }
  }

  lemma {:induction false} ElementsNested(elements: seq<Element>, i: nat)
    ensures ProperlyNested(SerializeElements(elements, i))
    decreases elements, 1
  {
    if elements != [] {
      FieldsNested(elements[0].fields);
      Bracketed(BeginCompoundVectorElement(i), SerializeFields(elements[0].fields), EndCompoundVectorElement);
      ElementsNested(elements[1..], i + 1);
      NestedAppend([BeginCompoundVectorElement(i)] + SerializeFields(elements[0].fields) + [EndCompoundVectorElement],
                   SerializeElements(elements[1..], i + 1), 0, 0, 0);
    }
  }

  // ---------------------------------------------------------------------
  // deserialize, as a function of the archive's remaining calls
  // ---------------------------------------------------------------------

  /** The archive call that did not match what the archive holds. */
  datatype Call =
    | ReadScalarCall | ReadStringCall | ReadVecCall | ReadScalarVectorCall
    | BeginGroupCall | EndGroupCall
    | BeginCompoundVectorCall | BeginElementCall | EndElementCall | EndCompoundVectorCall

  /** The error an archive raises for a call it cannot answer. */
  datatype SerialError = Unmatched(call: Call, name: string)

  /** What a read produced, and the calls the archive still holds. */
  datatype Read<T> = Read(out: Result<T, SerialError>, rest: seq<Event>)

  /** The archive answers a call that closes something (end_group and the
      like) when its next event is that end. */
  function ExpectEvent<T>(evs: seq<Event>, e: Event, call: Call, name: string, v: T): (r: Read<T>)
    ensures r.out.Success? <==> evs != [] && evs[0] == e
    ensures r.out.Success? ==> r.out.value == v && r.rest == evs[1..]
    ensures r.out.Failure? ==> r.out.error == Unmatched(call, name) && r.rest == evs
  {
    if evs != [] && evs[0] == e then Read(Success(v), evs[1..]) else Read(Failure(Unmatched(call, name)), evs)
  }

  /** deserialize(ar, name, value) for a target of type shape. */
  function DeserializeOf(shape: Shape, name: string, evs: seq<Event>): (r: Read<Value>)
    decreases shape, 0, 0
  {
    match shape
    case ScalarShape =>
      if evs != [] && evs[0].WriteScalar? && evs[0].name == name then Read(Success(Scalar(evs[0].n)), evs[1..])
      else Read(Failure(Unmatched(ReadScalarCall, name)), evs)
    case StrShape =>
      if evs != [] && evs[0].WriteString? && evs[0].name == name then Read(Success(Str(evs[0].s)), evs[1..])
      else Read(Failure(Unmatched(ReadStringCall, name)), evs)
    case VecShape(n) =>
      if evs != [] && evs[0].WriteVec? && evs[0].name == name && |evs[0].items| == n then
        Read(Success(Vec(evs[0].items)), evs[1..])
      else Read(Failure(Unmatched(ReadVecCall, name)), evs)
    case NumberVectorShape =>
      if evs != [] && evs[0].WriteScalarVector? && evs[0].name == name then
        Read(Success(NumberVector(evs[0].items)), evs[1..])
      else Read(Failure(Unmatched(ReadScalarVectorCall, name)), evs)
    case CompoundShape(fs) =>
      if evs != [] && evs[0] == BeginGroup(name) then
        var body := DeserializeFieldsOf(fs, evs[1..]);
        if body.out.Failure? then Read(Failure(body.out.error), body.rest)
        else ExpectEvent(body.rest, EndGroup, EndGroupCall, name, Compound(body.out.value))
      else Read(Failure(Unmatched(BeginGroupCall, name)), evs)
    case CompoundVectorShape(fs) =>
      if evs != [] && evs[0].BeginCompoundVector? && evs[0].name == name then
        var count := evs[0].size;
        var elements := DeserializeElementsOf(fs, count, 0, [], evs[1..]);
        if elements.out.Failure? then Read(Failure(elements.out.error), elements.rest)
        else ExpectEvent(elements.rest, EndCompoundVector, EndCompoundVectorCall, name, CompoundVector(elements.out.value))
      else Read(Failure(Unmatched(BeginCompoundVectorCall, name)), evs)
  }

  /** The fold over the target's fields, in declared order. */
  function DeserializeFieldsOf(fs: seq<FieldShape>, evs: seq<Event>): (r: Read<seq<Field>>)
    decreases fs, 1, 0
  {
    if fs == [] then Read(Success([]), evs)
    else
      var first := DeserializeOf(fs[0].shape, fs[0].name, evs);
      if first.out.Failure? then Read(Failure(first.out.error), first.rest)
      else
        var others := DeserializeFieldsOf(fs[1..], first.rest);
        if others.out.Failure? then others
        else Read(Success([Field(fs[0].name, first.out.value)] + others.out.value), others.rest)
  }

  /** One element of a vector of compound values: its begin call, its
      fields and its end call. */
  function DeserializeElementOf(fs: seq<FieldShape>, i: nat, evs: seq<Event>): (r: Read<Element>)
    decreases fs, 2, 0
  {
    if evs != [] && evs[0] == BeginCompoundVectorElement(i) then
      var fields := DeserializeFieldsOf(fs, evs[1..]);
      if fields.out.Failure? then Read(Failure(fields.out.error), fields.rest)
      else ExpectEvent(fields.rest, EndCompoundVectorElement, EndElementCall, "", Element(fields.out.value))
    else Read(Failure(Unmatched(BeginElementCall, "")), evs)
  }

  /** The loop of deserialize over a vector of compound values: elements
      i to count - 1, after the elements acc already read. */
  function DeserializeElementsOf(fs: seq<FieldShape>, count: nat, i: nat, acc: seq<Element>, evs: seq<Event>)
    : (r: Read<seq<Element>>)
    decreases fs, 3, count - i
  {
    if i >= count then Read(Success(acc), evs)
    else
      var element := DeserializeElementOf(fs, i, evs);
      if element.out.Failure? then Read(Failure(element.out.error), element.rest)
      else DeserializeElementsOf(fs, count, i + 1, acc + [element.out.value], element.rest)
  }

  // ---------------------------------------------------------------------
  // The round trip
  // ---------------------------------------------------------------------

  /** Against an archive that hands back what serialize wrote, deserialize
      makes the same calls in the same order and rebuilds the value; the
      archive is left holding exactly what followed. */
  lemma {:induction false} RoundTrip(name: string, v: Value, shape: Shape, rest: seq<Event>)
    requires Conforms(v, shape)
    ensures DeserializeOf(shape, name, Serialize(name, v) + rest) == Read(Success(v), rest)
    decreases v, 2
  {
    var evs := Serialize(name, v) + rest;
    match v
    case Scalar(n) =>
    case Str(s) =>
    case Vec(items) =>
    case NumberVector(items) =>
    case Compound(fields) =>
      var body := SerializeFields(fields);
      assert evs == [BeginGroup(name)] + (body + ([EndGroup] + rest));
      assert evs[1..] == body + ([EndGroup] + rest);
      FieldsRoundTrip(fields, shape.fields, [EndGroup] + rest);
      assert ([EndGroup] + rest)[1..] == rest;
    case CompoundVector(elements) =>
      var body := SerializeElements(elements, 0);
      assert evs == [BeginCompoundVector(name, |elements|)] + (body + ([EndCompoundVector] + rest));
      assert evs[1..] == body + ([EndCompoundVector] + rest);
      ElementsRoundTrip(elements, shape.element, 0, [], [EndCompoundVector] + rest);
      assert [] + elements == elements;
      assert ([EndCompoundVector] + rest)[1..] == rest;
  }

  lemma {:induction false} FieldsRoundTrip(fields: seq<Field>, fs: seq<FieldShape>, rest: seq<Event>)
    requires FieldsConform(fields, fs)
    ensures DeserializeFieldsOf(fs, SerializeFields(fields) + rest) == Read(Success(fields), rest)
    decreases fields, 1
  {
    if fields != [] {
      var first := Serialize(fields[0].name, fields[0].value);
      var others := SerializeFields(fields[1..]);
      assert SerializeFields(fields) + rest == first + (others + rest);
      RoundTrip(fields[0].name, fields[0].value, fs[0].shape, others + rest);
      FieldsRoundTrip(fields[1..], fs[1..], rest);
      assert fields == [Field(fs[0].name, fields[0].value)] + fields[1..];
    }
  }

  lemma {:induction false} ElementsRoundTrip(elements: seq<Element>, fs: seq<FieldShape>, i: nat,
                                             acc: seq<Element>, rest: seq<Event>)
    requires ElementsConform(elements, fs)
    ensures DeserializeElementsOf(fs, i + |elements|, i, acc, SerializeElements(elements, i) + rest)
         == Read(Success(acc + elements), rest)
    decreases elements, 1
  {
    if elements == [] {
      assert acc + elements == acc;
    } else {
      var fields := SerializeFields(elements[0].fields);
      var others := SerializeElements(elements[1..], i + 1);
      var after := [EndCompoundVectorElement] + (others + rest);
      assert SerializeElements(elements, i) + rest == [BeginCompoundVectorElement(i)] + (fields + after);
      assert ([BeginCompoundVectorElement(i)] + (fields + after))[1..] == fields + after;
      FieldsRoundTrip(elements[0].fields, fs, after);
      assert after[1..] == others + rest;
      ElementsRoundTrip(elements[1..], fs, i + 1, acc + [elements[0]], rest);
      assert acc + [elements[0]] + elements[1..] == acc + elements;
    }
  }

  // ---------------------------------------------------------------------
  // The archive calls, made step by step
  // ---------------------------------------------------------------------

  /** ElementsSnoc: one more element adds its begin call, its fields and
      its end call at the back. */
  lemma {:induction false} ElementsSnoc(elements: seq<Element>, e: Element, k: nat)
    ensures SerializeElements(elements + [e], k)
         == SerializeElements(elements, k)
            + ([BeginCompoundVectorElement(k + |elements|)] + SerializeFields(e.fields) + [EndCompoundVectorElement])
    decreases |elements|
  {
    if elements == [] {
      assert elements + [e] == [e];
      assert [e][1..] == [];
    } else {
      assert (elements + [e])[0] == elements[0];
      assert (elements + [e])[1..] == elements[1..] + [e];
      ElementsSnoc(elements[1..], e, k + 1);
    }
  }

  /** An archive writer that records the calls made on it. */
  class EventWriter {
    var calls: seq<Event>

    constructor ()
      ensures calls == []
    {
      calls := [];
    }

    /** serialize(ar, name, value). */
    method SerializeValue(name: string, v: Value)
      modifies this
      ensures calls == old(calls) + Serialize(name, v)
      decreases v, 0
    {
      match v
      case Scalar(n) => calls := calls + [WriteScalar(name, n)];
      case Str(s) => calls := calls + [WriteString(name, s)];
      case Vec(items) => calls := calls + [WriteVec(name, items)];
      case NumberVector(items) => calls := calls + [WriteScalarVector(name, items)];
      case Compound(fields) =>
        calls := calls + [BeginGroup(name)];
        SerializeFieldList(fields);
        calls := calls + [EndGroup];
      case CompoundVector(elements) => SerializeElementList(name, elements);
    }

    /** serialize for a std::vector of compound values: the size, then
        each element's fields between its begin and end calls. */
    method SerializeElementList(name: string, elements: seq<Element>)
      modifies this
      ensures calls == old(calls) + Serialize(name, CompoundVector(elements))
      decreases elements, 2
    {
      calls := calls + [BeginCompoundVector(name, |elements|)];
      ghost var start := calls;
      var i := 0;
      while i < |elements|
        invariant 0 <= i <= |elements|
        invariant calls == start + SerializeElements(elements[..i], 0)
      {
        calls := calls + [BeginCompoundVectorElement(i)];
        assert elements[i] in elements;
        SerializeFieldList(elements[i].fields);
        calls := calls + [EndCompoundVectorElement];
        assert calls == start + SerializeElements(elements[..i + 1], 0) by {
          ElementsSnoc(elements[..i], elements[i], 0);
          assert elements[..i + 1] == elements[..i] + [elements[i]];
        }
        i := i + 1;
      }
      assert elements[..i] == elements;
      calls := calls + [EndCompoundVector];
    }

    /** The fold over a struct's fields. */
    method SerializeFieldList(fields: seq<Field>)
      modifies this
      ensures calls == old(calls) + SerializeFields(fields)
      decreases fields, 1
    {
      if fields != [] {
        assert fields[0] in fields;
        SerializeValue(fields[0].name, fields[0].value);
        SerializeFieldList(fields[1..]);
      }
    }
  }

  /** An archive reader that hands back, call by call, the calls a writer
      recorded; remaining is what it still holds. */
  class EventReader {
    var remaining: seq<Event>

    constructor (recorded: seq<Event>)
      ensures remaining == recorded
    {
      remaining := recorded;
    }

    /** An end call: the archive's next event must be e. */
    method Expect(e: Event, call: Call, name: string) returns (r: Result<bool, SerialError>)
      modifies this
      ensures Read(r, remaining) == ExpectEvent(old(remaining), e, call, name, true)
    {
      if remaining != [] && remaining[0] == e {
        remaining := remaining[1..];
        r := Success(true);
      } else {
        r := Failure(Unmatched(call, name));
      }
    }

    /** deserialize(ar, name, value) for a target of type shape. */
    method DeserializeValue(shape: Shape, name: string) returns (r: Result<Value, SerialError>)
      modifies this
      ensures Read(r, remaining) == DeserializeOf(shape, name, old(remaining))
      decreases shape, 0, 0
    {
      match shape
      case ScalarShape =>
        if remaining != [] && remaining[0].WriteScalar? && remaining[0].name == name {
          r := Success(Scalar(remaining[0].n));
          remaining := remaining[1..];
        } else {
          r := Failure(Unmatched(ReadScalarCall, name));
        }
      case StrShape =>
        if remaining != [] && remaining[0].WriteString? && remaining[0].name == name {
          r := Success(Str(remaining[0].s));
          remaining := remaining[1..];
        } else {
          r := Failure(Unmatched(ReadStringCall, name));
        }
      case VecShape(n) =>
        if remaining != [] && remaining[0].WriteVec? && remaining[0].name == name && |remaining[0].items| == n {
          r := Success(Vec(remaining[0].items));
          remaining := remaining[1..];
        } else {
          r := Failure(Unmatched(ReadVecCall, name));
        }
      case NumberVectorShape =>
        if remaining != [] && remaining[0].WriteScalarVector? && remaining[0].name == name {
          r := Success(NumberVector(remaining[0].items));
          remaining := remaining[1..];
        } else {
          r := Failure(Unmatched(ReadScalarVectorCall, name));
        }
      case CompoundShape(fs) =>
        if remaining != [] && remaining[0] == BeginGroup(name) {
          remaining := remaining[1..];
          var fields := DeserializeFieldList(fs);
          if fields.Failure? {
            return Failure(fields.error);
          }
          var closed := Expect(EndGroup, EndGroupCall, name);
          if closed.Failure? {
            return Failure(closed.error);
          }
          r := Success(Compound(fields.value));
        } else {
          r := Failure(Unmatched(BeginGroupCall, name));
        }
      case CompoundVectorShape(fs) =>
        if remaining != [] && remaining[0].BeginCompoundVector? && remaining[0].name == name {
          var count := remaining[0].size;
          remaining := remaining[1..];
          ghost var goal := DeserializeElementsOf(fs, count, 0, [], remaining);
          // value.resize(count): every field is overwritten below
          var elements := seq(count, _ => DefaultElement(fs));
          var i := 0;
          while i < count
            invariant 0 <= i <= count && |elements| == count
            invariant DeserializeElementsOf(fs, count, i, elements[..i], remaining) == goal
            decreases count - i
          {
            var element := DeserializeElement(fs, i);
            if element.Failure? {
              return Failure(element.error);
            }
            assert elements[i := element.value][..i + 1] == elements[..i] + [element.value];
            elements := elements[i := element.value];
            i := i + 1;
          }
          assert elements[..i] == elements;
          var closed := Expect(EndCompoundVector, EndCompoundVectorCall, name);
          if closed.Failure? {
            return Failure(closed.error);
          }
          r := Success(CompoundVector(elements));
        } else {
          r := Failure(Unmatched(BeginCompoundVectorCall, name));
        }
    }

    /** The fold over the target's fields. */
    method DeserializeFieldList(fs: seq<FieldShape>) returns (r: Result<seq<Field>, SerialError>)
      modifies this
      ensures Read(r, remaining) == DeserializeFieldsOf(fs, old(remaining))
      decreases fs, 1, 0
    {
      if fs == [] {
        return Success([]);
      }
      var first := DeserializeValue(fs[0].shape, fs[0].name);
      if first.Failure? {
        return Failure(first.error);
      }
      var others := DeserializeFieldList(fs[1..]);
      if others.Failure? {
        return others;
      }
      r := Success([Field(fs[0].name, first.value)] + others.value);
    }

    /** One element of a vector of compound values. */
    method DeserializeElement(fs: seq<FieldShape>, i: nat) returns (r: Result<Element, SerialError>)
      modifies this
      ensures Read(r, remaining) == DeserializeElementOf(fs, i, old(remaining))
      decreases fs, 2, 0
    {
      if remaining != [] && remaining[0] == BeginCompoundVectorElement(i) {
        remaining := remaining[1..];
        var fields := DeserializeFieldList(fs);
        if fields.Failure? {
          return Failure(fields.error);
        }
        var closed := Expect(EndCompoundVectorElement, EndElementCall, "");
        if closed.Failure? {
          return Failure(closed.error);
        }
        r := Success(Element(fields.value));
      } else {
        r := Failure(Unmatched(BeginElementCall, ""));
      }
    }
  }

  /** A value-initialised element, as std::vector::resize makes it. */
  function DefaultElement(fs: seq<FieldShape>): (e: Element)
    ensures FieldsConform(e.fields, fs)
  {
    Element(DefaultFields(fs))
  }

  function DefaultOf(shape: Shape): (v: Value)
    ensures Conforms(v, shape)
    decreases shape, 0
  {
    match shape
    case ScalarShape => Scalar(Int(0))
    case StrShape => Str("")
    case VecShape(n) => Vec(seq(n, _ => Int(0)))
    case NumberVectorShape => NumberVector([])
    case CompoundShape(fs) => Compound(DefaultFields(fs))
    case CompoundVectorShape(fs) => CompoundVector([])
  }

  function DefaultFields(fs: seq<FieldShape>): (fields: seq<Field>)
    ensures FieldsConform(fields, fs)
    decreases fs, 1
  {
    if fs == [] then [] else [Field(fs[0].name, DefaultOf(fs[0].shape))] + DefaultFields(fs[1..])
  }

  /** Writing a value with an EventWriter and reading it back with an
      EventReader over what was written gives the value back. */
  method WriteThenRead(name: string, v: Value, shape: Shape) returns (r: Result<Value, SerialError>)
    requires Conforms(v, shape)
    ensures r == Success(v)
  {
    var writer := new EventWriter();
    writer.SerializeValue(name, v);
    assert writer.calls == Serialize(name, v) + [];
    RoundTrip(name, v, shape, []);
    var reader := new EventReader(writer.calls);
    r := reader.DeserializeValue(shape, name);
  }
}
