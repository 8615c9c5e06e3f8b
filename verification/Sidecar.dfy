/** The byte layout of client sidecars, along the inheritance chain of the receive tables
    (extension/sourcesdk/cbasenpcrecvtable.cpp:68-171; extension/sourcesdk/cbasenpcclientclass.h:52-62;
    extension/sourcesdk/cbasenpcclientclass.cpp:219-248). */
module Sidecar {
  import opened ByteLayout
  import opened MachineWords

  datatype Kind =
    | Int | Short | Char | Bool | Float | Time | Angle | Vector | VectorXY | QAngle
    | StringT | Color32 | EHandle | ModelIndex

  /** A field descriptor with its send options. `optionsOk` stands for the checks of flags, bits and ranges. */
  datatype SendField = SendField(name: string, count: nat, kind: Kind, stringMaxLength: int, optionsOk: bool)

  const MAX_ARRAY_ELEMENTS := 2048
  const DT_MAX_STRING_BUFFERSIZE := 512
  const MAX_SIDECAR := 16 * 1024 * 1024
  const HANDLE_SIZE := 4

  /** Lines 71-74: `CBaseNPC_ValidateSendFieldOptions`, and the checks of the descriptor. */
  predicate DescriptorOk(d: SendField) {
    && d.optionsOk && (d.kind.StringT? ==> 1 <= d.stringMaxLength <= DT_MAX_STRING_BUFFERSIZE)
    && d.name != "" && d.name != "baseclass" && d.name != "m_szCBaseNPCServerClassname"
    && 1 <= d.count <= MAX_ARRAY_ELEMENTS
  }

  lemma DescriptorOkIff(d: SendField)
    ensures DescriptorOk(d) <==>
              && d.optionsOk && 1 <= d.count <= 2048 && (d.kind.StringT? ==> 1 <= d.stringMaxLength <= 512)
              && d.name !in {"", "baseclass", "m_szCBaseNPCServerClassname"}
  {
  }

  /** What an element takes; for text the descriptor tells. */
  function KindSize(k: Kind): nat {
    match k
    case Short => 2
    case Char => 1
    case Bool => 1
    case Vector => 12
    case QAngle => 12
    case VectorXY => 8
    case _ => 4
  }

  function ElementSize(d: SendField): (n: int)
    ensures DescriptorOk(d) ==> 1 <= n <= 512 && SizeFits(d.kind, n)
    ensures d.kind.EHandle? ==> n == HANDLE_SIZE
  {
    if d.kind.StringT? then d.stringMaxLength else KindSize(d.kind)
  }

  /** Sizes in numbers: vectors are two or three floats, characters and flags are single bytes, and text is as long as
      it says. Every element is aligned to its parts. */
  lemma KindSizes(d: SendField)
    ensures d.kind in {Vector, QAngle} ==> ElementSize(d) == 3 * 4
    ensures d.kind == VectorXY ==> ElementSize(d) == 2 * 4
    ensures d.kind in {Int, Float, Time, Angle, Color32, EHandle, ModelIndex} ==> ElementSize(d) == 4
    ensures d.kind == Short ==> ElementSize(d) == 2
    ensures d.kind in {Char, Bool} ==> ElementSize(d) == 1
    ensures d.kind == StringT ==> ElementSize(d) == d.stringMaxLength
    ensures Alignment(d.kind) == if d.kind in {Char, Bool, StringT} then 1 else if d.kind == Short then 2 else 4
  {
  }

  predicate SizeFits(k: Kind, size: nat) {
    if k.StringT? then 1 <= size <= DT_MAX_STRING_BUFFERSIZE else size == KindSize(k)
  }

  function Alignment(k: Kind): (a: nat)
    ensures IsAlignment(a)
  {
    match k
    case Short => 2
    case Char => 1
    case Bool => 1
    case StringT => 1
    case _ => 4
  }

  // ---------- Tables ----------

  datatype Field = Field(kind: Kind, offset: nat, size: nat, count: nat)

  /** A receive table: of the game, or one of ours over its base class. */
  datatype Table = Stock | Custom(base: Table, fields: seq<Field>, size: nat)

  function SidecarSize(t: Table): nat {
    if t.Stock? then 0 else t.size
  }

  /** The elements of a field; an array lies without gaps. */
  function FieldElements(f: Field): seq<Element<Kind>> {
    ArrayElements(f.kind, f.offset, f.size, Alignment(f.kind), f.count)
  }

  function FieldsElements(fields: seq<Field>): seq<Element<Kind>> {
    if fields == [] then [] else FieldsElements(fields[..|fields| - 1]) + FieldElements(fields[|fields| - 1])
  }

  /** The elements of the whole chain, those of the base class first. */
  function AllElements(t: Table): seq<Element<Kind>> {
    if t.Stock? then [] else AllElements(t.base) + FieldsElements(t.fields)
  }

  predicate FieldOk(f: Field) {
    0 < f.count && SizeFits(f.kind, f.size)
  }

  /** Every level lies beyond its inherited prefix and within 16 MiB. */
  ghost predicate TableOk(t: Table) {
    t.Stock? ||
    (&& TableOk(t.base) && LaidOut(FieldsElements(t.fields), SidecarSize(t.base), t.size) && t.size <= MAX_SIDECAR
     && (forall i :: 0 <= i < |t.fields| ==> FieldOk(t.fields[i])))
  }

  /** The elements of the whole chain are aligned, pairwise disjoint and inside the sidecar. */
  lemma {:induction false} ChainLaidOut(t: Table)
    requires TableOk(t)
    ensures LaidOut(AllElements(t), 0, SidecarSize(t)) && SidecarSize(t) <= MAX_SIDECAR
  {
    if t.Custom? {
      ChainLaidOut(t.base);
      LaidOutConcat(AllElements(t.base), FieldsElements(t.fields), 0, SidecarSize(t.base), t.size);
    }
  }

  /** Every element of the chain has the size of its kind. */
  lemma {:induction false} ElementsSized(t: Table)
    requires TableOk(t)
    ensures forall i :: 0 <= i < |AllElements(t)| ==> SizeFits(AllElements(t)[i].kind, AllElements(t)[i].size)
  {
    if t.Custom? {
      ElementsSized(t.base);
      FieldsSized(t.fields);
    }
  }

  lemma {:induction false} FieldsSized(fields: seq<Field>)
    requires forall i :: 0 <= i < |fields| ==> FieldOk(fields[i])
    ensures forall i :: 0 <= i < |FieldsElements(fields)| ==>
              SizeFits(FieldsElements(fields)[i].kind, FieldsElements(fields)[i].size)
  {
    if fields != [] {
      FieldsSized(fields[..|fields| - 1]);
    }
  }

  /** Element sizes are multiples of their alignment. */
  lemma SizeAligned(d: SendField)
    requires DescriptorOk(d)
    ensures ElementSize(d) % Alignment(d.kind) == 0
  {
  }

  // ---------- Building a table ----------

  datatype Range = Range(offset: nat, count: nat, stride: nat)

  function FieldRanges(fields: seq<Field>): seq<Range> {
    if fields == [] then []
    else
      var f := fields[|fields| - 1];
      FieldRanges(fields[..|fields| - 1]) + if f.kind.EHandle? then [Range(f.offset, f.count, f.size)] else []
  }

  /** `ehandleInitRanges`: those of the base class, then the local ones. */
  function InitRanges(t: Table): seq<Range> {
    if t.Stock? then [] else InitRanges(t.base) + FieldRanges(t.fields)
  }

  class RecvTable {
    const base: Table
    const capacity: nat
    var fields: seq<Field>
    var size: nat
    var ranges: seq<Range>

    constructor (base: Table, capacity: nat)
      requires TableOk(base)
      ensures Valid() && this.base == base && this.capacity == capacity && fields == []
    {
      this.base, this.capacity := base, capacity;
      fields, size, ranges := [], SidecarSize(base), [];
      new;
      StartOk(base);
    }

    ghost function Built(): Table
      reads this
    {
      Custom(base, fields, size)
    }

    ghost predicate Valid()
      reads this
    {
      TableOk(Built()) && ranges == FieldRanges(fields)
    }

    /** `BuildField`: fails, with no effect, on a bad descriptor or when the sidecar would outgrow 16 MiB;
        otherwise the field goes to the first aligned offset at or after the current size. */
    method BuildField(index: nat, d: SendField) returns (ok: bool)
      requires Valid()
      modifies this
      ensures Valid()
      ensures ok <==> DescriptorOk(d) && index < capacity && old(Fits(d))
      ensures ok ==> d.optionsOk && 1 <= d.count <= 2048 && (d.kind.StringT? ==> 1 <= d.stringMaxLength <= 512)
      ensures ok ==> d.name !in {"", "baseclass", "m_szCBaseNPCServerClassname"} && size <= 0x100_0000
      ensures !ok && index < capacity ==>
                || !d.optionsOk || !(1 <= d.count <= 2048) || (d.kind.StringT? && !(1 <= d.stringMaxLength <= 512))
                || d.name in {"", "baseclass", "m_szCBaseNPCServerClassname"}
                || 0x100_0000 < AlignUp(size, Alignment(d.kind)) + ElementSize(d) * d.count
      ensures !ok ==> fields == old(fields) && size == old(size)
      ensures ok ==>
                && fields == old(fields) + [Field(d.kind, AlignUp(old(size), Alignment(d.kind)), ElementSize(d), d.count)]
                && size == AlignUp(old(size), Alignment(d.kind)) + ElementSize(d) * d.count
    {
      hide TableOk, FieldRanges, AlignUp, DescriptorOk, ElementSize;
      DescriptorOkIff(d);
      if !DescriptorOk(d) || index + 1 >= capacity + 1 {
        return false;
      }
      var elementSize, alignment := ElementSize(d), Alignment(d.kind);
      var offset := AlignUp(size, alignment);
      if offset > MAX_SIDECAR || elementSize * d.count > MAX_SIDECAR - offset {
        return false;
      }
      ghost var was := Built();
      var field := Field(d.kind, offset, elementSize, d.count);
      FieldAdded(was, d, field);
      RangesAdded(fields, field);
      fields := fields + [field];
      size := offset + elementSize * d.count;
      if d.kind.EHandle? {
        ranges := ranges + [Range(offset, d.count, elementSize)];
      }
      ok := true;
    }

    ghost predicate Fits(d: SendField)
      reads this`size
    {
      AlignUp(size, Alignment(d.kind)) + ElementSize(d) * d.count <= MAX_SIDECAR
    }
  }

  lemma RangesAdded(fields: seq<Field>, f: Field)
    ensures FieldRanges(fields + [f]) ==
            if f.kind.EHandle? then FieldRanges(fields) + [Range(f.offset, f.count, f.size)] else FieldRanges(fields)
  {
    assert (fields + [f])[..|fields|] == fields;
  }

  lemma StartOk(base: Table)
    requires TableOk(base)
    ensures TableOk(Custom(base, [], SidecarSize(base)))
  {
    ChainLaidOut(base);
  }

  function FieldEnd(f: Field): nat {
    f.offset + f.size * f.count
  }

  /** A field at the next aligned offset keeps the layout. */
  lemma FieldAdded(t: Table, d: SendField, f: Field)
    requires t.Custom? && TableOk(t) && DescriptorOk(d)
    requires f == Field(d.kind, AlignUp(t.size, Alignment(d.kind)), ElementSize(d), d.count)
    requires FieldEnd(f) <= MAX_SIDECAR
    ensures TableOk(Custom(t.base, t.fields + [f], FieldEnd(f)))
  {
    AlignUpIsNext(t.size, Alignment(d.kind));
    SizeAligned(d);
    ArrayLaidOut(f.kind, f.offset, f.size, Alignment(f.kind), f.count, t.size);
    LaidOutConcat(FieldsElements(t.fields), FieldElements(f), SidecarSize(t.base), t.size, f.offset + f.size * f.count);
    assert (t.fields + [f])[..|t.fields|] == t.fields;
  }

  // ---------- Initialisation ----------

  /** Byte k belongs to a handle of the chain. */
  ghost predicate InHandle(s: seq<Element<Kind>>, k: int) {
    exists i {:trigger s[i]} :: 0 <= i < |s| && s[i].kind.EHandle? && s[i].offset <= k < s[i].offset + HANDLE_SIZE
  }

  /** The range lies inside the sidecar; otherwise it is skipped. */
  predicate RangeTaken(r: Range, size: nat) {
    0 < r.stride && r.offset <= size && r.count <= (size - r.offset) / r.stride
  }

  ghost predicate TouchedBy(r: Range, i: nat, k: int) {
    i < r.count && r.offset + i * r.stride <= k < r.offset + i * r.stride + HANDLE_SIZE
  }

  /** The loop over the ranges takes this range, and touches byte k. */
  ghost predicate RangeTouches(r: Range, size: nat, k: int) {
    RangeTaken(r, size) && exists i: nat :: TouchedBy(r, i, k)
  }

  ghost predicate RangesTouch(ranges: seq<Range>, size: nat, k: int) {
    exists i :: 0 <= i < |ranges| && RangeTouches(ranges[i], size, k)
  }

  lemma FieldTouched(f: Field, size: nat, k: int)
    requires f.kind.EHandle? && f.size == HANDLE_SIZE && f.offset + f.size * f.count <= size
    ensures RangeTouches(Range(f.offset, f.count, f.size), size, k) <==> InHandle(FieldElements(f), k)
  {
    var r, s := Range(f.offset, f.count, f.size), FieldElements(f);
    RangeFits(f, size);
    if InHandle(s, k) {
      var i :| 0 <= i < |s| && s[i].kind.EHandle? && s[i].offset <= k < s[i].offset + HANDLE_SIZE;
      assert TouchedBy(r, i, k);
    }
    if RangeTouches(r, size, k) {
      var i: nat :| TouchedBy(r, i, k);
      assert s[i] == Element(f.kind, f.offset + i * f.size, f.size, Alignment(f.kind));
    }
  }

  lemma RangeFits(f: Field, size: nat)
    requires f.size == HANDLE_SIZE && f.offset + f.size * f.count <= size
    ensures RangeTaken(Range(f.offset, f.count, f.size), size)
  {
    assert f.size * f.count == HANDLE_SIZE * f.count;
  }

  lemma InHandleConcat(s: seq<Element<Kind>>, t: seq<Element<Kind>>, k: int)
    ensures InHandle(s + t, k) <==> InHandle(s, k) || InHandle(t, k)
  {
    var r := s + t;
    if InHandle(s, k) {
      var i :| 0 <= i < |s| && s[i].kind.EHandle? && s[i].offset <= k < s[i].offset + HANDLE_SIZE;
      assert r[i] == s[i];
    }
    if InHandle(t, k) {
      var i :| 0 <= i < |t| && t[i].kind.EHandle? && t[i].offset <= k < t[i].offset + HANDLE_SIZE;
      assert r[|s| + i] == t[i];
    }
    if InHandle(r, k) {
      var i :| 0 <= i < |r| && r[i].kind.EHandle? && r[i].offset <= k < r[i].offset + HANDLE_SIZE;
      assert if i < |s| then s[i] == r[i] else t[i - |s|] == r[i];
    }
  }

  lemma RangesConcat(s: seq<Range>, t: seq<Range>, size: nat, k: int)
    ensures RangesTouch(s + t, size, k) <==> RangesTouch(s, size, k) || RangesTouch(t, size, k)
  {
    var r := s + t;
    if RangesTouch(s, size, k) {
      var i :| 0 <= i < |s| && RangeTouches(s[i], size, k);
      assert r[i] == s[i];
    }
    if RangesTouch(t, size, k) {
      var i :| 0 <= i < |t| && RangeTouches(t[i], size, k);
      assert r[|s| + i] == t[i];
    }
    if RangesTouch(r, size, k) {
      var i :| 0 <= i < |r| && RangeTouches(r[i], size, k);
      assert if i < |s| then s[i] == r[i] else t[i - |s|] == r[i];
    }
  }

  lemma {:induction false} FieldsTouched(fields: seq<Field>, lo: nat, hi: nat, size: nat, k: int)
    requires ElementsOk(FieldsElements(fields), lo, hi) && hi <= size && forall i :: 0 <= i < |fields| ==> FieldOk(fields[i])
    ensures RangesTouch(FieldRanges(fields), size, k) <==> InHandle(FieldsElements(fields), k)
  {
    hide RangesTouch, InHandle, RangeTouches, FieldRanges, FieldElements, FieldOk, ElementsOk;
    NothingTouched(size, k);
    if fields != [] {
      var n := |fields| - 1;
      var f := fields[n];
      ElementsOkParts(FieldsElements(fields[..n]), FieldElements(f), lo, hi);
      FieldsTouched(fields[..n], lo, hi, size, k);
      InHandleConcat(FieldsElements(fields[..n]), FieldElements(f), k);
      OneFieldTouched(f, lo, hi, size, k);
      RangesConcat(FieldRanges(fields[..n]), FieldRanges([f]), size, k);
      LastRange(fields);
    }
  }

  lemma LastRange(fields: seq<Field>)
    requires fields != []
    ensures FieldRanges(fields) == FieldRanges(fields[..|fields| - 1]) + FieldRanges([fields[|fields| - 1]])
  {
    var f := fields[|fields| - 1];
    RangesAdded([], f);
    assert [] + [f] == [f];
    assert FieldRanges([]) + [Range(f.offset, f.count, f.size)] == [Range(f.offset, f.count, f.size)];
  }

  lemma NothingTouched(size: nat, k: int)
    ensures FieldRanges([]) == [] && !RangesTouch([], size, k) && !InHandle([], k)
  {
  }

  lemma OneFieldTouched(f: Field, lo: nat, hi: nat, size: nat, k: int)
    requires ElementsOk(FieldElements(f), lo, hi) && hi <= size && FieldOk(f)
    ensures RangesTouch(FieldRanges([f]), size, k) <==> InHandle(FieldElements(f), k)
  {
    hide RangeTouches;
    var r := Range(f.offset, f.count, f.size);
    RangesAdded([], f);
    assert [] + [f] == [f];
    if f.kind.EHandle? {
      ArrayFits(f.kind, f.offset, f.size, Alignment(f.kind), f.count, lo, hi);
      FieldTouched(f, size, k);
      assert [r][0] == r;
    }
  }

  /** The fast initialisation by ranges touches exactly the bytes that walking the whole chain would. */
  lemma {:induction false} RangesAreHandles(t: Table, size: nat, k: int)
    requires TableOk(t) && SidecarSize(t) <= size
    ensures RangesTouch(InitRanges(t), size, k) <==> InHandle(AllElements(t), k)
  {
    hide RangesTouch, InHandle, RangeTouches;
    NothingTouched(size, k);
    if t.Custom? {
      RangesAreHandles(t.base, size, k);
      FieldsTouched(t.fields, SidecarSize(t.base), t.size, size, k);
      RangesConcat(InitRanges(t.base), FieldRanges(t.fields), size, k);
      InHandleConcat(AllElements(t.base), FieldsElements(t.fields), k);
    }
  }

  // ---------- The same on a block of bytes ----------

  /** `CBaseHandle::Term`. */
  method Term(bytes: array<byte>, offset: nat)
    requires offset + HANDLE_SIZE <= bytes.Length
    modifies bytes
    ensures forall k :: 0 <= k < bytes.Length ==>
              bytes[k] == if offset <= k < offset + HANDLE_SIZE then 0xFF else old(bytes[k])
  {
    bytes[offset], bytes[offset + 1], bytes[offset + 2], bytes[offset + 3] := 0xFF, 0xFF, 0xFF, 0xFF;
  }

  /** `InitializeSidecar`. */
  method InitializeSidecar(bytes: array<byte>, ranges: seq<Range>)
    requires forall i :: 0 <= i < |ranges| ==> HANDLE_SIZE <= ranges[i].stride
    modifies bytes
    ensures forall k :: 0 <= k < bytes.Length ==> bytes[k] == if RangesTouch(ranges, bytes.Length, k) then 0xFF else 0
  {
    forall k | 0 <= k < bytes.Length {
      bytes[k] := 0;
    }
    NoRanges(ranges, bytes.Length);
    for j := 0 to |ranges|
      invariant forall k :: 0 <= k < bytes.Length ==> bytes[k] == if RangesTouch(ranges[..j], bytes.Length, k) then 0xFF else 0
    {
      InitializeRange(bytes, ranges[j]);
      forall k
        ensures RangesTouch(ranges[..j + 1], bytes.Length, k) <==>
                RangesTouch(ranges[..j], bytes.Length, k) || RangeTouches(ranges[j], bytes.Length, k)
      {
        OneMoreRange(ranges, j, bytes.Length, k);
      }
    }
    assert ranges[..|ranges|] == ranges;
  }

  lemma NoRanges(ranges: seq<Range>, size: nat)
    ensures forall k :: !RangesTouch(ranges[..0], size, k)
  {
  }

  lemma OneMoreRange(ranges: seq<Range>, j: nat, size: nat, k: int)
    requires j < |ranges|
    ensures RangesTouch(ranges[..j + 1], size, k) <==> RangesTouch(ranges[..j], size, k) || RangeTouches(ranges[j], size, k)
  {
    assert ranges[..j + 1] == ranges[..j] + [ranges[j]];
    RangesConcat(ranges[..j], [ranges[j]], size, k);
    assert [ranges[j]][0] == ranges[j];
  }

  /** Lines 56-60. A range whose stride is shorter than a handle would let the last one run over. */
  method InitializeRange(bytes: array<byte>, r: Range)
    requires HANDLE_SIZE <= r.stride
    modifies bytes
    ensures forall k :: 0 <= k < bytes.Length ==>
              bytes[k] == if RangeTouches(r, bytes.Length, k) then 0xFF else old(bytes[k])
  {
    if !RangeTaken(r, bytes.Length) {
      return;
    }
    for i := 0 to r.count
      invariant forall k :: 0 <= k < bytes.Length ==> bytes[k] == if TouchedBefore(r, i, k) then 0xFF else old(bytes[k])
    {
      RangeInside(r, bytes.Length, i);
      Term(bytes, r.offset + i * r.stride);
      forall k
        ensures TouchedBefore(r, i + 1, k) <==>
                TouchedBefore(r, i, k) || r.offset + i * r.stride <= k < r.offset + i * r.stride + HANDLE_SIZE
      {
        TouchedNext(r, i, k);
      }
    }
  }

  ghost predicate TouchedBefore(r: Range, i: nat, k: int) {
    exists j: nat :: j < i && TouchedBy(r, j, k)
  }

  lemma TouchedNext(r: Range, i: nat, k: int)
    requires i < r.count
    ensures TouchedBefore(r, i + 1, k) <==>
            TouchedBefore(r, i, k) || r.offset + i * r.stride <= k < r.offset + i * r.stride + HANDLE_SIZE
  {
    if r.offset + i * r.stride <= k < r.offset + i * r.stride + HANDLE_SIZE {
      assert TouchedBy(r, i, k);
    }
  }

  lemma RangeInside(r: Range, size: nat, i: nat)
    requires RangeTaken(r, size) && HANDLE_SIZE <= r.stride && i < r.count
    ensures r.offset + i * r.stride + HANDLE_SIZE <= size
  {
    assert (i + 1) * r.stride <= r.count * r.stride <= (size - r.offset) / r.stride * r.stride <= size - r.offset;
  }

  /** `InitializeStorage`: walk the tables from the base class on, and terminate each handle. */
  method InitializeStorage(t: Table, bytes: array<byte>, size: nat)
    requires TableOk(t) && SidecarSize(t) <= size <= bytes.Length
    modifies bytes
    ensures forall k :: 0 <= k < bytes.Length ==> bytes[k] == if InHandle(AllElements(t), k) then 0xFF else old(bytes[k])
  {
    hide InHandle;
    NothingHandled();
    if t.Custom? {
      InitializeStorage(t.base, bytes, size);
      ghost var was := bytes[..];
      var j := 0;
      while j < |t.fields|
        invariant 0 <= j <= |t.fields| && |was| == bytes.Length
        invariant forall k :: 0 <= k < bytes.Length ==>
                    bytes[k] == if InHandle(FieldsElements(t.fields[..j]), k) then 0xFF else was[k]
      {
        FieldFits(t.fields, j, SidecarSize(t.base), t.size);
        InitializeField(t.fields[j], bytes, size);
        forall k
          ensures InHandle(FieldsElements(t.fields[..j + 1]), k) <==>
                  InHandle(FieldsElements(t.fields[..j]), k) || InHandle(FieldElements(t.fields[j]), k)
        {
          OneMoreField(t.fields, j, k);
        }
        j := j + 1;
      }
      assert t.fields[..|t.fields|] == t.fields;
      forall k
        ensures InHandle(AllElements(t), k) <==> InHandle(AllElements(t.base), k) || InHandle(FieldsElements(t.fields), k)
      {
        InHandleConcat(AllElements(t.base), FieldsElements(t.fields), k);
      }
    }
  }

  lemma NothingHandled()
    ensures forall k :: !InHandle([], k)
  {
  }

  lemma OneMoreField(fields: seq<Field>, j: nat, k: int)
    requires j < |fields|
    ensures InHandle(FieldsElements(fields[..j + 1]), k) <==>
            InHandle(FieldsElements(fields[..j]), k) || InHandle(FieldElements(fields[j]), k)
  {
    assert fields[..j + 1][..j] == fields[..j];
    InHandleConcat(FieldsElements(fields[..j]), FieldElements(fields[j]), k);
  }

  lemma {:induction false} FieldFits(fields: seq<Field>, j: nat, lo: nat, hi: nat)
    requires j < |fields| && ElementsOk(FieldsElements(fields), lo, hi)
    ensures ElementsOk(FieldElements(fields[j]), lo, hi)
  {
    var n := |fields| - 1;
    ElementsOkParts(FieldsElements(fields[..n]), FieldElements(fields[n]), lo, hi);
    if j < n {
      FieldFits(fields[..n], j, lo, hi);
    }
  }

  /** The leaf of a single field, or the leaves of the array's own table. */
  method InitializeField(f: Field, bytes: array<byte>, size: nat)
    requires size <= bytes.Length && ElementsOk(FieldElements(f), 0, size) && FieldOk(f)
    modifies bytes
    ensures forall k :: 0 <= k < bytes.Length ==> bytes[k] == if InHandle(FieldElements(f), k) then 0xFF else old(bytes[k])
  {
    ghost var s := FieldElements(f);
    for i := 0 to f.count
      invariant forall k :: 0 <= k < bytes.Length ==> bytes[k] == if InHandle(s[..i], k) then 0xFF else old(bytes[k])
    {
      var offset := f.offset + i * f.size;
      assert s[i].offset == offset && ElementOk(s[i], 0, size);
      if f.kind.EHandle? && offset <= size && HANDLE_SIZE <= size - offset {
        Term(bytes, offset);
      }
      forall k
        ensures InHandle(s[..i + 1], k) <==>
                InHandle(s[..i], k) || (f.kind.EHandle? && offset <= k < offset + HANDLE_SIZE)
      {
        OneMoreElement(s, i, k);
      }
    }
    assert s[..f.count] == s;
  }

  lemma OneMoreElement(s: seq<Element<Kind>>, i: nat, k: int)
    requires i < |s|
    ensures InHandle(s[..i + 1], k) <==>
            InHandle(s[..i], k) || (s[i].kind.EHandle? && s[i].offset <= k < s[i].offset + HANDLE_SIZE)
  {
    assert s[..i + 1] == s[..i] + [s[i]];
    InHandleConcat(s[..i], [s[i]], k);
    assert [s[i]][0] == s[i];
  }

  /** Zeroing a sidecar and walking the tables gives the bytes that the range-based initialisation gives. */
  method InitializeBothWays(t: Table, fast: array<byte>, slow: array<byte>)
    requires TableOk(t) && fast != slow && fast.Length == slow.Length == SidecarSize(t)
    modifies fast, slow
    ensures fast[..] == slow[..]
  {
    RangeStrides(t);
    InitializeSidecar(fast, InitRanges(t));
    forall k | 0 <= k < slow.Length {
      slow[k] := 0;
    }
    InitializeStorage(t, slow, slow.Length);
    forall k | 0 <= k < fast.Length
      ensures fast[k] == slow[k]
    {
      RangesAreHandles(t, SidecarSize(t), k);
    }
  }

  lemma {:induction false} RangeStrides(t: Table)
    requires TableOk(t)
    ensures forall i :: 0 <= i < |InitRanges(t)| ==> HANDLE_SIZE <= InitRanges(t)[i].stride
  {
    if t.Custom? {
      RangeStrides(t.base);
      FieldRangeStrides(t.fields);
    }
  }

  lemma {:induction false} FieldRangeStrides(fields: seq<Field>)
    requires forall i :: 0 <= i < |fields| ==> FieldOk(fields[i])
    ensures forall i :: 0 <= i < |FieldRanges(fields)| ==> HANDLE_SIZE <= FieldRanges(fields)[i].stride
  {
    if fields != [] {
      var n := |fields| - 1;
      FieldRangeStrides(fields[..n]);
    }
  }
}
