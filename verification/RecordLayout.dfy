/** The padding layout of the ABI generator.  The emitted members, laid out by the scalar alignment
    rule of the Vulkan specification ("Offset and Stride Assignment"), must land on the offsets that
    C++ gave the fields. */
module RecordLayout {
  import opened Arithmetic
  import opened Common

  /** A C++ type with the sizes and offsets that the compiler reports.  A record has at most one
      base; FixedArray and Optional are the two templates with a built-in emission. */
  datatype Type =
    | Scalar(bytes: nat)
    | ArrayOf(element: Type, count: nat)
    | FixedArray(element: Type, capacity: nat)
    | Optional(element: Type)
    | Struct(base: seq<Type>, fields: seq<Field>, size: nat, align: nat)

  datatype Field = Field(offset: nat, t: Type)

  function Max(a: nat, b: nat): nat {
    if a <= b then b else a
  }

  // ----- The C++ side

  function CppAlign(t: Type): nat {
    match t
    case Scalar(bytes) => bytes
    case ArrayOf(e, _) => CppAlign(e)
    case FixedArray(e, _) => Max(4, CppAlign(e))
    case Optional(e) => CppAlign(e)
    case Struct(_, _, _, align) => align
  }

  function CppSize(t: Type): nat
    requires CppAligned(t)
  {
    match t
    case Scalar(bytes) => bytes
    case ArrayOf(e, n) => CppSize(e) * n
    case FixedArray(e, n) => RoundUp(RoundUp(4, CppAlign(e)) + CppSize(e) * n, Max(4, CppAlign(e)))
    case Optional(e) => RoundUp(RoundUp(1, CppAlign(e)) + CppSize(e), CppAlign(e))
    case Struct(_, _, size, _) => size
  }

  /** Alignments are positive all the way down. */
  predicate CppAligned(t: Type)
    ensures CppAligned(t) ==> CppAlign(t) > 0
  {
    CppAlign(t) > 0 &&
    match t
    case Scalar(_) => true
    case ArrayOf(e, _) => CppAligned(e)
    case FixedArray(e, _) => CppAligned(e)
    case Optional(e) => CppAligned(e)
    case Struct(base, fields, _, _) =>
      && |base| <= 1
      && (forall i :: 0 <= i < |base| ==> base[i].Struct? && CppAligned(base[i]))
      && (forall i :: 0 <= i < |fields| ==> CppAligned(fields[i].t))
  }

  predicate AlignedFields(fields: seq<Field>) {
    forall i :: 0 <= i < |fields| ==> CppAligned(fields[i].t)
  }

  /** The fields have types inside t. */
  ghost predicate SmallerFields(t: Type, fields: seq<Field>) {
    AlignedFields(fields) && forall i :: 0 <= i < |fields| ==> fields[i].t < t
  }

  /** _flattened_fields: the fields of the base first; a single base stands at offset zero. */
  function Flattened(t: Type): (r: seq<Field>)
    requires t.Struct? && CppAligned(t)
    ensures SmallerFields(t, r)
  {
    (if t.base == [] then [] else Flattened(t.base[0])) + t.fields
  }

  /** A field of the record itself or of a base of it. */
  ghost predicate HasField(t: Type, f: Field)
    decreases t
  {
    t.Struct? && (f in t.fields || (t.base != [] && HasField(t.base[0], f)))
  }

  /** All fields of a record: those of its base first, then its own, each in declared order. */
  ghost predicate Lists(t: Type, fields: seq<Field>)
    decreases t
  {
    t.Struct? &&
    if t.base == [] then fields == t.fields
    else exists inherited :: fields == inherited + t.fields && Lists(t.base[0], inherited)
  }

  /** Flattening a record lists its fields. */
  lemma {:induction false} FlattenedLists(t: Type, fields: seq<Field>)
    requires t.Struct? && CppAligned(t)
    ensures Lists(t, fields) <==> fields == Flattened(t)
    decreases t
  {
    if t.base == [] {
      assert [] + t.fields == t.fields;
    } else {
      FlattenedLists(t.base[0], Flattened(t.base[0]));
      if Lists(t, fields) {
        var inherited :| fields == inherited + t.fields && Lists(t.base[0], inherited);
        FlattenedLists(t.base[0], inherited);
      }
    }
  }

  lemma {:induction false} FlattenedHas(t: Type, f: Field)
    requires t.Struct? && CppAligned(t)
    ensures f in Flattened(t) <==> HasField(t, f)
    decreases t
  {
    if t.base != [] {
      FlattenedHas(t.base[0], f);
    }
  }

  /** Fields in order, naturally aligned, not overlapping, and inside the record. */
  ghost predicate Fits(fields: seq<Field>, from: nat, size: nat)
    requires AlignedFields(fields)
  {
    if fields == [] then from <= size
    else
      var f := fields[0];
      && from <= f.offset && Divides(CppAlign(f.t), f.offset)
      && Fits(fields[1..], f.offset + CppSize(f.t), size)
  }

  /** The records that C++ can produce with natural alignment. */
  ghost predicate CppValid(t: Type) {
    CppAligned(t) && Divides(CppAlign(t), CppSize(t)) &&
    match t
    case Scalar(_) => true
    case ArrayOf(e, _) => CppValid(e)
    case FixedArray(e, _) => CppValid(e) && (Divides(CppAlign(e), 4) || Divides(4, CppAlign(e)))
    case Optional(e) => CppValid(e)
    case Struct(_, _, size, align) =>
      var fields := Flattened(t);
      && size > 0 && Fits(fields, 0, size)
      && forall i :: 0 <= i < |fields| ==> CppValid(fields[i].t) && Divides(CppAlign(fields[i].t), align)
  }

  /** A field is naturally aligned and ends where the next one starts, or the record ends, at the latest. */
  ghost predicate FitsAt(fields: seq<Field>, i: nat, size: nat)
    requires AlignedFields(fields) && i < |fields|
  {
    && Divides(CppAlign(fields[i].t), fields[i].offset)
    && fields[i].offset + CppSize(fields[i].t) <= if i + 1 < |fields| then fields[i + 1].offset else size
  }

  /** Which records are valid, on the listed fields: in order, naturally aligned, without overlap, inside the
      record, valid themselves, and no more strictly aligned than the record. */
  lemma {:induction false} ValidOnFields(t: Type, fields: seq<Field>)
    requires t.Struct? && CppAligned(t) && Lists(t, fields)
    ensures AlignedFields(fields)
    ensures CppValid(t) <==>
      && t.size > 0 && Divides(t.align, t.size)
      && (forall i :: 0 <= i < |fields| ==> FitsAt(fields, i, t.size))
      && (forall i :: 0 <= i < |fields| ==> CppValid(fields[i].t) && Divides(CppAlign(fields[i].t), t.align))
  {
    FlattenedLists(t, fields);
    FitsMeans(fields, 0, t.size);
  }

  lemma {:induction false} FitsMeans(fields: seq<Field>, from: nat, size: nat)
    requires AlignedFields(fields)
    ensures Fits(fields, from, size) <==>
      && from <= (if fields == [] then size else fields[0].offset)
      && forall i :: 0 <= i < |fields| ==> FitsAt(fields, i, size)
  {
    if fields != [] {
      var rest := fields[1..];
      FitsMeans(rest, fields[0].offset + CppSize(fields[0].t), size);
      forall i | 0 <= i < |rest|
        ensures FitsAt(rest, i, size) <==> FitsAt(fields, i + 1, size)
      {
      }
      if Fits(fields, from, size) {
        forall i | 0 <= i < |fields|
          ensures FitsAt(fields, i, size)
        {
          assert i > 0 ==> FitsAt(rest, i - 1, size);
        }
      }
      assert FitsAt(fields, 0, size) <==>
             (Divides(CppAlign(fields[0].t), fields[0].offset) &&
              fields[0].offset + CppSize(fields[0].t) <= if rest == [] then size else rest[0].offset);
    }
  }

  // ----- Emission

  datatype Item = Pad(bytes: nat) | Member(t: Type)

  /** What one field adds to the list. */
  function FieldItems(field: Field, offset: nat): seq<Item> {
    (if field.offset > offset then [Pad(field.offset - offset)] else []) + [Member(field.t)]
  }

  /** The members that _record_text writes from a running offset on. */
  function Items(fields: seq<Field>, offset: nat, size: nat): seq<Item>
    requires AlignedFields(fields)
  {
    if fields == [] then (if offset < size then [Pad(size - offset)] else [])
    else
      var f := fields[0];
      FieldItems(f, offset) + Items(fields[1..], f.offset + CppSize(f.t), size)
  }

  function RecordItems(t: Type): seq<Item>
    requires t.Struct? && CppAligned(t)
  {
    if Flattened(t) == [] then [Pad(1)] + Items([], 1, t.size) else Items(Flattened(t), 0, t.size)
  }

  /** The types of the members that are fields. */
  ghost function MemberTypes(items: seq<Item>): seq<Type> {
    if items == [] then []
    else (if items[0].Member? then [items[0].t] else []) + MemberTypes(items[1..])
  }

  ghost function TypesOf(fields: seq<Field>): seq<Type> {
    seq(|fields|, i requires 0 <= i < |fields| => fields[i].t)
  }

  lemma {:induction false} ItemsAreFields(fields: seq<Field>, offset: nat, size: nat)
    requires AlignedFields(fields)
    ensures MemberTypes(Items(fields, offset, size)) == TypesOf(fields)
  {
    if fields == [] {
      assert offset < size ==> Items(fields, offset, size)[1..] == [];
    } else {
      var f := fields[0];
      var rest := Items(fields[1..], f.offset + CppSize(f.t), size);
      ItemsAreFields(fields[1..], f.offset + CppSize(f.t), size);
      assert ([Member(f.t)] + rest)[1..] == rest;
      if f.offset > offset {
        assert (FieldItems(f, offset) + rest)[1..] == [Member(f.t)] + rest;
      }
      assert TypesOf(fields) == [f.t] + TypesOf(fields[1..]);
    }
  }

  /** The members of a record's emission are its fields, in their listed order. */
  lemma {:induction false} RecordItemsAreFields(t: Type, fields: seq<Field>)
    requires t.Struct? && CppAligned(t) && Lists(t, fields)
    ensures MemberTypes(RecordItems(t)) == TypesOf(fields)
  {
    FlattenedLists(t, fields);
    ItemsAreFields(fields, 0, t.size);
    ItemsAreFields([], 1, t.size);
    assert ([Pad(1)] + Items([], 1, t.size))[1..] == Items([], 1, t.size);
  }

  ghost predicate NoOverlap(fields: seq<Field>, from: nat)
    requires AlignedFields(fields)
  {
    fields == [] || (from <= fields[0].offset && NoOverlap(fields[1..], fields[0].offset + CppSize(fields[0].t)))
  }

  ghost predicate EndsBefore(fields: seq<Field>, i: nat)
    requires AlignedFields(fields) && i + 1 < |fields|
  {
    fields[i].offset + CppSize(fields[i].t) <= fields[i + 1].offset
  }

  /** Every field starts where the one in front of it ends, or later. */
  ghost predicate InOrder(fields: seq<Field>)
    requires AlignedFields(fields)
  {
    forall i :: 0 <= i < |fields| - 1 ==> EndsBefore(fields, i)
  }

  lemma {:induction false} NoOverlapMeans(fields: seq<Field>, from: nat)
    requires AlignedFields(fields)
    ensures NoOverlap(fields, from) <==> (fields == [] || from <= fields[0].offset) && InOrder(fields)
  {
    if fields != [] {
      var rest := fields[1..];
      NoOverlapMeans(rest, fields[0].offset + CppSize(fields[0].t));
      forall i | 0 <= i < |rest| - 1
        ensures EndsBefore(rest, i) <==> EndsBefore(fields, i + 1)
      {
      }
      if NoOverlap(fields, from) {
        forall i | 0 <= i < |fields| - 1
          ensures EndsBefore(fields, i)
        {
          assert i > 0 ==> EndsBefore(rest, i - 1);
        }
      } else if InOrder(fields) && rest != [] {
        assert EndsBefore(fields, 0);
      }
    }
  }

  /** The members written so far, followed by those still to come, are the whole list. */
  ghost predicate Writing(items: seq<Item>, fields: seq<Field>, i: nat, offset: nat, size: nat)
    requires i <= |fields| && AlignedFields(fields)
  {
    items + Items(fields[i..], offset, size) == Items(fields, 0, size)
  }

  lemma {:induction false} WriteStep(items: seq<Item>, fields: seq<Field>, i: nat, offset: nat, size: nat)
    requires i < |fields| && AlignedFields(fields)
    requires Writing(items, fields, i, offset, size)
    ensures Writing(items + FieldItems(fields[i], offset), fields, i + 1, fields[i].offset + CppSize(fields[i].t), size)
  {
    var more := FieldItems(fields[i], offset);
    var rest := Items(fields[i + 1..], fields[i].offset + CppSize(fields[i].t), size);
    assert fields[i..][1..] == fields[i + 1..];
    assert Items(fields[i..], offset, size) == more + rest;
    assert items + (more + rest) == items + more + rest;
  }

  lemma {:induction false} OverlapStep(fields: seq<Field>, i: nat, offset: nat)
    requires i < |fields| && AlignedFields(fields)
    ensures NoOverlap(fields[i..], offset) <==>
            offset <= fields[i].offset && NoOverlap(fields[i + 1..], fields[i].offset + CppSize(fields[i].t))
  {
    assert fields[i..][1..] == fields[i + 1..];
  }

  /** One turn of the loop: the padding before a field, and the field. */
  method WriteField(fields: seq<Field>, i: nat, items: seq<Item>, offset: nat, ghost size: nat)
    returns (ok: bool, longer: seq<Item>, next: nat)
    requires i < |fields| && AlignedFields(fields) && Writing(items, fields, i, offset, size)
    ensures NoOverlap(fields[i..], offset) <==> ok && NoOverlap(fields[i + 1..], next)
    ensures ok ==> Writing(longer, fields, i + 1, next, size)
  {
    var field := fields[i];
    OverlapStep(fields, i, offset);
    next := field.offset + CppSize(field.t);
    if field.offset < offset {
      return false, items, next;
    }
    WriteStep(items, fields, i, offset, size);
    longer := items;
    if field.offset > offset {
      longer := longer + [Pad(field.offset - offset)];
    }
    longer := longer + [Member(field.t)];
    assert longer == items + FieldItems(field, offset);
    ok := true;
  }

  /** The loop over the fields: it refuses overlapping fields and pads every gap. */
  method WriteFields(fields: seq<Field>, ghost size: nat) returns (ok: bool, items: seq<Item>, offset: nat)
    requires AlignedFields(fields)
    ensures ok <==> NoOverlap(fields, 0)
    ensures ok ==> Writing(items, fields, |fields|, offset, size)
    ensures ok && fields == [] ==> items == [] && offset == 0
  {
    ok, items, offset := true, [], 0;
    assert fields[0..] == fields;
    for i := 0 to |fields|
      invariant Writing(items, fields, i, offset, size)
      invariant NoOverlap(fields, 0) <==> NoOverlap(fields[i..], offset)
      invariant i == 0 ==> items == [] && offset == 0
    {
      ok, items, offset := WriteField(fields, i, items, offset, size);
      if !ok {
        return;
      }
    }
    ok := true;
  }

  /** _record_text: the fields, a placeholder for an empty record, and the tail padding. */
  method RecordText(t: Type) returns (result: Result<seq<Item>>)
    requires t.Struct? && CppAligned(t)
    ensures result.Ok? <==> NoOverlap(Flattened(t), 0)
    ensures result.Ok? ==> result.value == RecordItems(t)
    ensures forall fields :: Lists(t, fields) ==>
              && AlignedFields(fields) && (result.Ok? <==> InOrder(fields))
              && (result.Ok? ==> MemberTypes(result.value) == TypesOf(fields))
  {
    forall all | Lists(t, all)
      ensures all == Flattened(t) && MemberTypes(RecordItems(t)) == TypesOf(all)
      ensures NoOverlap(Flattened(t), 0) <==> InOrder(all)
    {
      FlattenedLists(t, all);
      RecordItemsAreFields(t, all);
      NoOverlapMeans(all, 0);
    }
    var fields := Flattened(t);
    var ok, items, offset := WriteFields(fields, t.size);
    if !ok {
      return Err("overlapping field");
    }
    assert fields[|fields|..] == [];
    if fields == [] {
      items := items + [Pad(1)];
      offset := 1;
    }
    if offset < t.size {
      items := items + [Pad(t.size - offset)];
    }
    result := Ok(items);
  }

  // ----- The scalar rule

  /** The members of a list are smaller types than t. */
  ghost predicate Placeable(t: Type, items: seq<Item>) {
    forall i :: 0 <= i < |items| && items[i].Member? ==> items[i].t < t && CppAligned(items[i].t)
  }

  lemma {:induction false} ItemsPlaceable(t: Type, fields: seq<Field>, offset: nat, size: nat)
    requires SmallerFields(t, fields)
    ensures Placeable(t, Items(fields, offset, size))
  {
    if fields != [] {
      ItemsPlaceable(t, fields[1..], fields[0].offset + CppSize(fields[0].t), size);
    }
  }

  lemma {:induction false} RecordPlaceable(t: Type)
    requires t.Struct? && CppAligned(t)
    ensures Placeable(t, RecordItems(t))
  {
    ItemsPlaceable(t, Flattened(t), 0, t.size);
    ItemsPlaceable(t, [], 1, t.size);
  }

  /** Scalar alignment: that of the largest scalar inside. */
  ghost function ScalarAlign(t: Type): Positive
    requires CppAligned(t)
    decreases t, 1, 0
  {
    match t
    case Scalar(bytes) => bytes
    case ArrayOf(e, _) => ScalarAlign(e)
    case FixedArray(e, _) => Max(4, ScalarAlign(e))
    case Optional(e) => Max(1, ScalarAlign(e))
    case Struct(_, _, _, _) => FieldsAlign(t, Flattened(t))
  }

  ghost function FieldsAlign(t: Type, fields: seq<Field>): Positive
    requires SmallerFields(t, fields)
    decreases t, 0, |fields|
  {
    if fields == [] then 1 else Max(ScalarAlign(fields[0].t), FieldsAlign(t, fields[1..]))
  }

  /** A scalar of this many bytes stands in the type, the count of a fixed array and the flag of an optional
      included. */
  ghost predicate HasScalar(t: Type, bytes: nat)
    requires CppAligned(t)
    decreases t
  {
    match t
    case Scalar(b) => bytes == b
    case ArrayOf(e, _) => HasScalar(e, bytes)
    case FixedArray(e, _) => bytes == 4 || HasScalar(e, bytes)
    case Optional(e) => bytes == 1 || HasScalar(e, bytes)
    case Struct(_, _, _, _) => exists i :: 0 <= i < |Flattened(t)| && HasScalar(Flattened(t)[i].t, bytes)
  }

  /** The scalar alignment is the size of the largest scalar inside, or one if there is none. */
  lemma {:induction false} ScalarAlignIsLargest(t: Type)
    requires CppAligned(t)
    ensures forall bytes: nat :: HasScalar(t, bytes) ==> bytes <= ScalarAlign(t)
    ensures ScalarAlign(t) == 1 || HasScalar(t, ScalarAlign(t))
    decreases t, 1, 0
  {
    match t
    case Scalar(_) =>
    case ArrayOf(e, _) => ScalarAlignIsLargest(e);
    case FixedArray(e, _) => ScalarAlignIsLargest(e);
    case Optional(e) => ScalarAlignIsLargest(e);
    case Struct(_, _, _, _) => FieldsAlignIsLargest(t, Flattened(t));
  }

  lemma {:induction false} FieldsAlignIsLargest(t: Type, fields: seq<Field>)
    requires SmallerFields(t, fields)
    ensures forall i, bytes: nat :: 0 <= i < |fields| && HasScalar(fields[i].t, bytes) ==>
              bytes <= FieldsAlign(t, fields)
    ensures FieldsAlign(t, fields) == 1 ||
            exists i :: 0 <= i < |fields| && HasScalar(fields[i].t, FieldsAlign(t, fields))
    decreases t, 0, |fields|
  {
    if fields != [] {
      var rest := fields[1..];
      ScalarAlignIsLargest(fields[0].t);
      FieldsAlignIsLargest(t, rest);
      assert forall i :: 0 <= i < |rest| ==> rest[i] == fields[i + 1];
      if FieldsAlign(t, fields) == FieldsAlign(t, rest) != 1 {
        var i :| 0 <= i < |rest| && HasScalar(rest[i].t, FieldsAlign(t, rest));
        assert HasScalar(fields[i + 1].t, FieldsAlign(t, fields));
      }
    }
  }

  /** Where a type laid out by the scalar rule ends when it starts at zero. */
  ghost function ScalarSize(t: Type): nat
    requires CppAligned(t)
    decreases t, 1, 0
  {
    match t
    case Scalar(bytes) => bytes
    case ArrayOf(e, n) => RoundUp(ScalarSize(e), ScalarAlign(e)) * n
    case FixedArray(e, n) => RoundUp(4, ScalarAlign(e)) + RoundUp(ScalarSize(e), ScalarAlign(e)) * n
    case Optional(e) => RoundUp(1, ScalarAlign(e)) + ScalarSize(e)
    case Struct(_, _, _, _) =>
      RecordPlaceable(t);
      Layout(t, RecordItems(t), 0).1
  }

  /** The scalar rule over a member list: the offsets of the members, and where the list ends. */
  ghost function Layout(t: Type, items: seq<Item>, offset: nat): (seq<nat>, nat)
    requires Placeable(t, items)
    decreases t, 0, |items|
  {
    if items == [] then ([], offset)
    else
      match items[0]
      case Pad(bytes) => Layout(t, items[1..], offset + bytes)
      case Member(m) =>
        var at := RoundUp(offset, ScalarAlign(m));
        var (rest, end) := Layout(t, items[1..], at + ScalarSize(m));
        ([at] + rest, end)
  }

  // ----- Agreement

  /** What the scalar rule leaves out at the end of a type. */
  ghost function Slack(t: Type): int
    requires CppAligned(t)
  {
    CppSize(t) - ScalarSize(t)
  }

  /** Every gap between two fields is closed by the alignment of the second; nothing is left out behind the
      last one. */
  ghost predicate GapsOk(fields: seq<Field>)
    requires AlignedFields(fields)
  {
    fields == [] ||
    (GapOk(fields[0], fields[1..]) && GapsOk(fields[1..]))
  }

  ghost predicate GapOk(field: Field, rest: seq<Field>)
    requires CppAligned(field.t) && AlignedFields(rest)
  {
    if rest == [] then Slack(field.t) == 0 else Slack(field.t) < ScalarAlign(rest[0].t)
  }

  /** When a type has its C++ size under the scalar rule, in terms of the types inside. */
  ghost predicate SizeAgrees(t: Type)
    requires CppAligned(t)
  {
    match t
    case Scalar(_) => true
    case ArrayOf(e, n) => n == 0 || Slack(e) < ScalarAlign(e)
    case FixedArray(e, n) => FixedAgrees(e, n)
    case Optional(e) => ScalarAlign(e) == CppAlign(e) && Slack(e) == 0
    case Struct(_, _, _, _) => GapsOk(Flattened(t))
  }

  ghost predicate FixedAgrees(e: Type, n: nat)
    requires CppAligned(e)
  {
    && RoundUp(4, ScalarAlign(e)) == RoundUp(4, CppAlign(e)) && (n == 0 || Slack(e) < ScalarAlign(e))
    && Divides(Max(4, CppAlign(e)), RoundUp(4, CppAlign(e)) + CppSize(e) * n)
  }

  /** Scalar alignment always divides the C++ alignment. */
  lemma {:induction false} ScalarAlignDivides(t: Type)
    requires CppValid(t)
    ensures Divides(ScalarAlign(t), CppAlign(t))
    decreases t, 1, 0
  {
    match t
    case Scalar(_) =>
    case ArrayOf(e, _) => ScalarAlignDivides(e);
    case FixedArray(e, _) =>
      ScalarAlignDivides(e);
      MaxDivides(ScalarAlign(e), CppAlign(e));
    case Optional(e) => ScalarAlignDivides(e);
    case Struct(_, _, _, align) => FieldsAlignDivides(t, Flattened(t), align);
  }

  /** The count of a fixed array is four bytes wide. */
  lemma {:induction false} MaxDivides(a: nat, b: nat)
    requires b > 0 && Divides(a, b) && (Divides(b, 4) || Divides(4, b))
    ensures Divides(Max(4, a), Max(4, b))
  {
    DividesBounds(a, b);
    if Divides(b, 4) {
      DividesBounds(b, 4);
    } else {
      DividesBounds(4, b);
    }
  }

  lemma {:induction false} DividesBounds(d: nat, x: nat)
    requires x > 0 && Divides(d, x)
    ensures d <= x
  {
    assert x == x / d * d;
  }

  lemma {:induction false} FieldsAlignDivides(t: Type, fields: seq<Field>, align: nat)
    requires align > 0
    requires SmallerFields(t, fields)
    requires forall i :: 0 <= i < |fields| ==> CppValid(fields[i].t) && Divides(CppAlign(fields[i].t), align)
    ensures Divides(FieldsAlign(t, fields), align)
    decreases t, 0, |fields|
  {
    if fields != [] {
      ScalarAlignDivides(fields[0].t);
      DividesTransitive(ScalarAlign(fields[0].t), CppAlign(fields[0].t), align);
      FieldsAlignDivides(t, fields[1..], align);
    }
  }

  // ----- The scalar rule never needs more room

  lemma {:induction false} ScalarSizeAtMost(t: Type)
    requires CppValid(t)
    ensures ScalarSize(t) <= CppSize(t)
    decreases t, 2, 0
  {
    match t
    case Scalar(_) =>
    case ArrayOf(e, n) => StrideAtMost(t, e, n);
    case FixedArray(e, n) =>
      StrideAtMost(t, e, n);
      CountAtMost(e);
      SumBelow(RoundUp(4, ScalarAlign(e)), RoundUp(4, CppAlign(e)), RoundUp(ScalarSize(e), ScalarAlign(e)) * n,
               CppSize(e) * n, Max(4, CppAlign(e)));
    case Optional(e) =>
      StrideAtMost(t, e, 1);
      FlagAtMost(e);
      SumBelow(RoundUp(1, ScalarAlign(e)), RoundUp(1, CppAlign(e)), ScalarSize(e), CppSize(e), CppAlign(e));
    case Struct(_, _, _, _) => StructAtMost(t);
  }

  lemma {:induction false} StructAtMost(t: Type)
    requires CppValid(t) && t.Struct?
    ensures ScalarSize(t) <= t.size
    decreases t, 1, |Flattened(t)| + 1
  {
    RecordPlaceable(t);
    if Flattened(t) == [] {
      EmptyLayout(t);
    } else {
      LayoutAtMost(t, Flattened(t), 0, 0, t.size);
    }
  }

  lemma {:induction false} StrideAtMost(t: Type, e: Type, n: nat)
    requires e < t && CppValid(e)
    ensures 0 <= Slack(e) && Divides(ScalarAlign(e), CppSize(e))
    ensures var stride := RoundUp(ScalarSize(e), ScalarAlign(e));
      && stride * n <= CppSize(e) * n
      && (stride * n == CppSize(e) * n <==> n == 0 || Slack(e) < ScalarAlign(e))
    decreases t, 0, 0
  {
    ScalarSizeAtMost(e);
    ScalarAlignDivides(e);
    DividesTransitive(ScalarAlign(e), CppAlign(e), CppSize(e));
    RoundUpDrift(CppSize(e), Slack(e), ScalarAlign(e));
    SameProduct(RoundUp(ScalarSize(e), ScalarAlign(e)), CppSize(e), n);
  }

  lemma {:induction false} SumBelow(a: nat, b: nat, c: nat, d: nat, unit: nat)
    requires a <= b && c <= d && unit > 0
    ensures a + c <= RoundUp(b + d, unit)
  {
    RoundUpExact(b + d, unit);
  }

  lemma {:induction false} SameProduct(a: nat, b: nat, n: nat)
    requires a <= b
    ensures a * n <= b * n && (a * n == b * n <==> n == 0 || a == b)
  {
    ProductMonotone(a, b, n);
    if a < b && n > 0 {
      RowsApart(a, b, n);
    }
  }

  /** The four bytes of a count, up to where the elements start. */
  lemma {:induction false} CountAtMost(e: Type)
    requires CppValid(e)
    ensures RoundUp(4, ScalarAlign(e)) <= RoundUp(4, CppAlign(e))
  {
    ScalarAlignDivides(e);
    RoundUpExact(4, CppAlign(e));
    DividesTransitive(ScalarAlign(e), CppAlign(e), RoundUp(4, CppAlign(e)));
    RoundUpLeast(4, ScalarAlign(e), RoundUp(4, CppAlign(e)));
  }

  /** The one byte of a flag, up to where the value starts. */
  lemma {:induction false} FlagAtMost(e: Type)
    requires CppValid(e)
    ensures RoundUp(1, ScalarAlign(e)) == ScalarAlign(e) <= CppAlign(e) == RoundUp(1, CppAlign(e))
  {
    ScalarAlignDivides(e);
    DividesBounds(ScalarAlign(e), CppAlign(e));
    OneRoundsUp(ScalarAlign(e));
    OneRoundsUp(CppAlign(e));
  }

  lemma {:induction false} OneRoundsUp(unit: nat)
    requires unit > 0
    ensures RoundUp(1, unit) == unit
  {
    assert (1 + unit - 1) / unit == 1;
  }

  // ----- Where the emitted members land

  /** One field, laid out from a cursor that has fallen behind. */
  lemma {:induction false} PlaceField(t: Type, field: Field, offset: nat, drift: nat, rest: seq<Item>)
    requires CppAligned(field.t) && field.t < t && Placeable(t, rest) && drift <= offset <= field.offset
    ensures Placeable(t, FieldItems(field, offset) + rest)
    ensures var at := RoundUp(field.offset - drift, ScalarAlign(field.t));
            var (offsets, end) := Layout(t, rest, at + ScalarSize(field.t));
            Layout(t, FieldItems(field, offset) + rest, offset - drift) == ([at] + offsets, end)
  {
    var tail := [Member(field.t)] + rest;
    assert tail[1..] == rest;
    if field.offset > offset {
      var all := FieldItems(field, offset) + rest;
      assert all[0] == Pad(field.offset - offset) && all[1..] == tail;
    } else {
      assert FieldItems(field, offset) + rest == tail;
    }
  }

  function OffsetsOf(fields: seq<Field>): seq<nat> {
    seq(|fields|, i requires 0 <= i < |fields| => fields[i].offset)
  }

  lemma {:induction false} TailLayout(t: Type, offset: nat, drift: nat, size: nat)
    requires drift <= offset <= size
    ensures Placeable(t, Items([], offset, size))
    ensures Layout(t, Items([], offset, size), offset - drift) == ([], size - drift)
  {
    if offset < size {
      assert Items([], offset, size)[1..] == [];
    }
  }

  /** Where a field lands when the cursor has fallen behind: not behind its C++ offset, and on it exactly if
      the drift is less than its alignment. */
  lemma {:induction false} FieldLands(t: Type, field: Field, drift: nat)
    requires field.t < t && CppValid(field.t) && Divides(CppAlign(field.t), field.offset) && drift <= field.offset
    ensures 0 <= Slack(field.t)
    ensures var at := RoundUp(field.offset - drift, ScalarAlign(field.t));
            at <= field.offset && (at == field.offset <==> drift < ScalarAlign(field.t))
    decreases t, 0, 1
  {
    ScalarSizeAtMost(field.t);
    ScalarAlignDivides(field.t);
    DividesTransitive(ScalarAlign(field.t), CppAlign(field.t), field.offset);
    RoundUpDrift(field.offset, drift, ScalarAlign(field.t));
  }

  /** Laying out fields is placing the first and laying out the rest. */
  lemma {:induction false} FirstPlaced(t: Type, fields: seq<Field>, offset: nat, drift: nat, size: nat, next: nat,
                                       at: nat)
    requires SmallerFields(t, fields) && fields != [] && drift <= offset <= fields[0].offset
    requires next == fields[0].offset + CppSize(fields[0].t)
    requires at == RoundUp(fields[0].offset - drift, ScalarAlign(fields[0].t))
    ensures Placeable(t, Items(fields, offset, size)) && Placeable(t, Items(fields[1..], next, size))
    ensures var rest := Layout(t, Items(fields[1..], next, size), at + ScalarSize(fields[0].t));
            Layout(t, Items(fields, offset, size), offset - drift) == ([at] + rest.0, rest.1)
  {
    var rest := Items(fields[1..], next, size);
    assert Items(fields, offset, size) == FieldItems(fields[0], offset) + rest by {
      ItemsFirst(fields, offset, size, next);
    }
    ItemsPlaceable(t, fields[1..], next, size);
    PlaceField(t, fields[0], offset, drift, rest);
  }

  lemma {:induction false} ItemsFirst(fields: seq<Field>, offset: nat, size: nat, next: nat)
    requires AlignedFields(fields) && fields != [] && next == fields[0].offset + CppSize(fields[0].t)
    ensures Items(fields, offset, size) == FieldItems(fields[0], offset) + Items(fields[1..], next, size)
  {
  }

  lemma {:induction false} LayoutAtMost(t: Type, fields: seq<Field>, offset: nat, drift: nat, size: nat)
    requires SmallerFields(t, fields) && drift <= offset
    requires forall i :: 0 <= i < |fields| ==> CppValid(fields[i].t)
    requires Fits(fields, offset, size)
    ensures Placeable(t, Items(fields, offset, size))
    ensures Layout(t, Items(fields, offset, size), offset - drift).1 <= size
    decreases t, 1, |fields|
  {
    if fields == [] {
      TailLayout(t, offset, drift, size);
    } else {
      var f, rest := fields[0], fields[1..];
      var next := f.offset + CppSize(f.t);
      FieldLands(t, f, drift);
      var at := RoundUp(f.offset - drift, ScalarAlign(f.t));
      LayoutAtMost(t, rest, next, next - (at + ScalarSize(f.t)), size);
      FirstPlaced(t, fields, offset, drift, size, next, at);
    }
  }

  lemma {:induction false} EmptyLayout(t: Type)
    requires CppValid(t) && t.Struct? && Flattened(t) == []
    ensures Placeable(t, RecordItems(t)) && Layout(t, RecordItems(t), 0) == ([], t.size)
  {
    RecordPlaceable(t);
    TailLayout(t, 1, 0, t.size);
    assert RecordItems(t)[0] == Pad(1) && RecordItems(t)[1..] == Items([], 1, t.size);
  }

  /** The list is right exactly if the first field lands where it should and the rest is right. */
  lemma {:induction false} FirstLands(t: Type, fields: seq<Field>, offset: nat, drift: nat, size: nat, next: nat,
                                      at: nat)
    requires SmallerFields(t, fields) && fields != [] && drift <= offset <= fields[0].offset
    requires next == fields[0].offset + CppSize(fields[0].t)
    requires at == RoundUp(fields[0].offset - drift, ScalarAlign(fields[0].t))
    ensures Placeable(t, Items(fields, offset, size)) && Placeable(t, Items(fields[1..], next, size))
    ensures Layout(t, Items(fields, offset, size), offset - drift) == (OffsetsOf(fields), size) <==>
            && at == fields[0].offset
            && Layout(t, Items(fields[1..], next, size), at + ScalarSize(fields[0].t)) ==
               (OffsetsOf(fields[1..]), size)
  {
    FirstPlaced(t, fields, offset, drift, size, next, at);
    OffsetsOfFirst(fields);
    var rest := Layout(t, Items(fields[1..], next, size), at + ScalarSize(fields[0].t));
    SameList(at, rest.0, fields[0].offset, OffsetsOf(fields[1..]));
  }

  lemma {:induction false} OffsetsOfFirst(fields: seq<Field>)
    requires fields != []
    ensures OffsetsOf(fields) == [fields[0].offset] + OffsetsOf(fields[1..])
  {
  }

  lemma {:induction false} SameList(x: nat, a: seq<nat>, y: nat, b: seq<nat>)
    ensures [x] + a == [y] + b <==> x == y && a == b
  {
    assert ([x] + a)[0] == x && ([y] + b)[0] == y && ([x] + a)[1..] == a && ([y] + b)[1..] == b;
  }

  /** From a cursor that has fallen behind, everything lands on its C++ offset exactly if the first field
      closes the gap and the fields close the gaps between them. */
  lemma {:induction false} LayoutAgreesIff(t: Type, fields: seq<Field>, offset: nat, drift: nat, size: nat)
    requires SmallerFields(t, fields) && drift <= offset
    requires forall i :: 0 <= i < |fields| ==> CppValid(fields[i].t)
    requires Fits(fields, offset, size)
    ensures Placeable(t, Items(fields, offset, size))
    ensures Layout(t, Items(fields, offset, size), offset - drift) == (OffsetsOf(fields), size) <==>
            if fields == [] then drift == 0 else drift < ScalarAlign(fields[0].t) && GapsOk(fields)
    decreases |fields|
  {
    if fields == [] {
      TailLayout(t, offset, drift, size);
      assert OffsetsOf(fields) == [];
    } else {
      var f, rest := fields[0], fields[1..];
      var next := f.offset + CppSize(f.t);
      FieldLands(t, f, drift);
      var at := RoundUp(f.offset - drift, ScalarAlign(f.t));
      FirstLands(t, fields, offset, drift, size, next, at);
      LayoutAgreesIff(t, rest, next, Slack(f.t), size);
      assert f.offset + ScalarSize(f.t) == next - Slack(f.t);
    }
  }

  lemma {:induction false} FitsWithoutOverlap(fields: seq<Field>, from: nat, size: nat)
    requires AlignedFields(fields) && Fits(fields, from, size)
    ensures NoOverlap(fields, from)
  {
    if fields != [] {
      FitsWithoutOverlap(fields[1..], fields[0].offset + CppSize(fields[0].t), size);
    }
  }

  /** MAIN RESULT.  Every valid record is accepted.  The scalar rule puts every emitted member on its C++
      offset and ends at the C++ size if and only if every gap that a member leaves is closed. */
  lemma {:induction false} RecordAgreesIff(t: Type)
    requires CppValid(t) && t.Struct?
    ensures NoOverlap(Flattened(t), 0) && Placeable(t, RecordItems(t))
    ensures Layout(t, RecordItems(t), 0) == (OffsetsOf(Flattened(t)), t.size) <==> GapsOk(Flattened(t))
  {
    FitsWithoutOverlap(Flattened(t), 0, t.size);
    RecordPlaceable(t);
    if Flattened(t) == [] {
      EmptyLayout(t);
      assert OffsetsOf(Flattened(t)) == [];
    } else {
      LayoutAgreesIff(t, Flattened(t), 0, 0, t.size);
    }
  }

  /** MAIN RESULT, on the listed fields: every field of the record and of its bases lands on its C++ offset, in
      the listed order, and the record ends at its C++ size, if and only if the gaps are closed. */
  lemma {:induction false} FieldsLandIff(t: Type, fields: seq<Field>)
    requires CppValid(t) && t.Struct? && Lists(t, fields)
    ensures AlignedFields(fields) && Placeable(t, RecordItems(t))
    ensures forall f :: f in fields <==> HasField(t, f)
    ensures Layout(t, RecordItems(t), 0) == (OffsetsOf(fields), t.size) <==> GapsOk(fields)
  {
    FlattenedLists(t, fields);
    RecordAgreesIff(t);
    forall f
      ensures f in fields <==> HasField(t, f)
    {
      FlattenedHas(t, f);
    }
  }

  /** In particular, records of types that keep their size agree. */
  lemma {:induction false} RecordAgrees(t: Type)
    requires CppValid(t) && t.Struct?
    requires forall i :: 0 <= i < |Flattened(t)| ==> SizeAgrees(Flattened(t)[i].t)
    ensures NoOverlap(Flattened(t), 0) && Placeable(t, RecordItems(t))
    ensures Layout(t, RecordItems(t), 0) == (OffsetsOf(Flattened(t)), t.size)
  {
    RecordAgreesIff(t);
    forall i | 0 <= i < |Flattened(t)|
      ensures Slack(Flattened(t)[i].t) == 0
    {
      ScalarSizeIsCppSize(Flattened(t)[i].t);
    }
    NoSlack(Flattened(t));
  }

  lemma {:induction false} NoSlack(fields: seq<Field>)
    requires AlignedFields(fields) && forall i :: 0 <= i < |fields| ==> Slack(fields[i].t) == 0
    ensures GapsOk(fields)
  {
    if fields != [] {
      NoSlack(fields[1..]);
    }
  }

  /** MAIN RESULT, sizes: a type with the stated property has its C++ size under the scalar rule, and of the
      types that are not records no other type has. */
  lemma {:induction false} ScalarSizeIsCppSize(t: Type)
    requires CppValid(t)
    ensures SizeAgrees(t) ==> ScalarSize(t) == CppSize(t)
    ensures !t.Struct? ==> (ScalarSize(t) == CppSize(t) <==> SizeAgrees(t))
  {
    match t
    case Scalar(_) =>
    case ArrayOf(e, n) => StrideAtMost(t, e, n);
    case FixedArray(e, n) => FixedArrayAgreesIff(e, n);
    case Optional(e) => OptionalAgreesIff(e);
    case Struct(_, _, _, _) => RecordAgreesIff(t);
  }

  /** The built-in fixed array has its C++ size exactly if its elements start and stride as in C++ and it
      needs no tail padding. */
  lemma {:induction false} FixedArrayAgreesIff(e: Type, n: nat)
    requires CppValid(FixedArray(e, n))
    ensures ScalarSize(FixedArray(e, n)) == CppSize(FixedArray(e, n)) <==> SizeAgrees(FixedArray(e, n))
  {
    StrideAtMost(FixedArray(e, n), e, n);
    CountAtMost(e);
    RoundUpExact(RoundUp(4, CppAlign(e)) + CppSize(e) * n, Max(4, CppAlign(e)));
  }

  lemma {:induction false} OptionalAgreesIff(e: Type)
    requires CppValid(Optional(e))
    ensures ScalarSize(Optional(e)) == CppSize(Optional(e)) <==> SizeAgrees(Optional(e))
  {
    StrideAtMost(Optional(e), e, 1);
    FlagAtMost(e);
    RoundUpExact(CppAlign(e), CppAlign(e));
    SumDivides(CppAlign(e), CppAlign(e), CppSize(e));
    RoundUpExact(CppAlign(e) + CppSize(e), CppAlign(e));
  }

  lemma {:induction false} SumDivides(d: nat, a: nat, b: nat)
    requires Divides(d, a) && Divides(d, b)
    ensures Divides(d, a + b)
  {
    assert a + b == (a / d + b / d) * d;
    MultipleDivides(a / d + b / d, d);
  }

  /** A witness: one byte in a fixed array takes five bytes as emitted and eight in C++. */
  lemma {:induction false} ByteArrayDiffers()
    ensures ScalarSize(FixedArray(Scalar(1), 1)) == 5 && CppSize(FixedArray(Scalar(1), 1)) == 8
  {
    RoundUpExact(4, 1);
  }

  /** A witness that the record can agree all the same: a four-byte field behind it closes the gap, a byte
      does not. */
  lemma {:induction false} NextFieldDecides()
    ensures GapsOk([Field(0, FixedArray(Scalar(1), 1)), Field(8, Scalar(4))])
    ensures !GapsOk([Field(0, FixedArray(Scalar(1), 1)), Field(8, Scalar(1))])
  {
    ByteArrayDiffers();
    var first, wide, narrow := Field(0, FixedArray(Scalar(1), 1)), Field(8, Scalar(4)), Field(8, Scalar(1));
    assert [first, wide][1..] == [wide] && [first, narrow][1..] == [narrow] && [wide][1..] == [];
  }
}
