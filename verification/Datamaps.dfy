/** The layout of plugin-defined entity data along a chain of factories, and access to it
    (extension/idatamapcontainer.cpp:103-220, 244-342, 971-996; extension/pluginentityfactory.cpp:911-928,
    1115-1135). */
module Datamaps {
  import opened ByteLayout
  import opened MachineWords
  import opened Wrappers

  /** `fieldtype_t`. */
  datatype FieldType =
    | FieldVoid | FieldFloat | FieldString | FieldVector | FieldQuaternion | FieldInteger | FieldBoolean | FieldShort
    | FieldCharacter | FieldColor32 | FieldEmbedded | FieldCustom | FieldClassPtr | FieldEHandle | FieldEdict
    | FieldPositionVector | FieldTime | FieldTick | FieldModelName | FieldSoundName | FieldInput | FieldFunction
    | FieldVMatrix | FieldVMatrixWorldspace | FieldMatrix3x4Worldspace | FieldInterval | FieldModelIndex
    | FieldMaterialIndex | FieldVector2D

  /** `g_DataMapDescFieldSizes`; the size of a function pointer depends on the platform. */
  function FieldSize(t: FieldType, posix: bool): nat {
    match t
    case FieldVoid => 0
    case FieldVector => 12
    case FieldQuaternion => 16
    case FieldBoolean => 1
    case FieldShort => 2
    case FieldCharacter => 1
    case FieldEmbedded => 0
    case FieldCustom => 0
    case FieldPositionVector => 12
    case FieldFunction => if posix then 8 else 4
    case FieldVMatrix => 64
    case FieldVMatrixWorldspace => 64
    case FieldMatrix3x4Worldspace => 48
    case FieldInterval => 8
    case FieldVector2D => 8
    case _ => 4
  }

  /** The alignment that `GetAlignedOffset` picks for a field type: that of a float for the types made of
      floats, else the size itself. */
  function FieldAlign(t: FieldType, posix: bool): (a: nat)
    ensures a == 0 || IsAlignment(a)
    ensures a == 0 <==> FieldSize(t, posix) == 0
    ensures 0 < a ==> FieldSize(t, posix) % a == 0
  {
    match t
    case FieldVector => 4
    case FieldQuaternion => 4
    case FieldPositionVector => 4
    case FieldVMatrix => 4
    case FieldVMatrixWorldspace => 4
    case FieldMatrix3x4Worldspace => 4
    case FieldInterval => 4
    case FieldVector2D => 4
    case _ => FieldSize(t, posix)
  }

  /** How many floats a value of the type is made of, for types made of floats. */
  ghost function Floats(t: FieldType): nat {
    match t
    case FieldFloat => 1
    case FieldTime => 1
    case FieldInterval => 2
    case FieldVector2D => 2
    case FieldVector => 3
    case FieldPositionVector => 3
    case FieldQuaternion => 4
    case FieldMatrix3x4Worldspace => 12
    case FieldVMatrix => 16
    case FieldVMatrixWorldspace => 16
    case _ => 0
  }

  /** Sizes and alignments in numbers: floats are laid out as an array of them, and anything else is aligned to its size. */
  lemma FieldSizes(t: FieldType, posix: bool)
    ensures 0 < Floats(t) ==> FieldSize(t, posix) == 4 * Floats(t) && FieldAlign(t, posix) == 4
    ensures Floats(t) == 0 ==> FieldAlign(t, posix) == FieldSize(t, posix)
    ensures t in {FieldVoid, FieldEmbedded, FieldCustom} ==> FieldSize(t, posix) == 0
    ensures t in {FieldBoolean, FieldCharacter} ==> FieldSize(t, posix) == 1
    ensures t == FieldShort ==> FieldSize(t, posix) == 2
    ensures t == FieldFunction ==> FieldSize(t, posix) == if posix then 8 else 4
    ensures IsWord(t) ==> FieldSize(t, posix) == 4
  {
  }

  ghost predicate IsWord(t: FieldType) {
    || t in {FieldString, FieldInteger, FieldColor32, FieldClassPtr, FieldEHandle, FieldEdict, FieldTick, FieldModelName}
    || t in {FieldSoundName, FieldInput, FieldModelIndex, FieldMaterialIndex}
  }

  /** The types that integers are written to. */
  ghost predicate IsInteger(t: FieldType) {
    || t in {FieldInteger, FieldTick, FieldModelIndex, FieldMaterialIndex, FieldColor32}
    || t in {FieldShort, FieldCharacter, FieldBoolean}
  }

  function AlignedOffset(offset: nat, align: nat): (r: nat)
    requires align == 0 || IsAlignment(align)
    ensures offset <= r && (0 < align ==> r % align == 0 && r < offset + align) && (align == 0 ==> r == offset)
  {
    if align == 0 then offset else AlignUpIsNext(offset, align); AlignUp(offset, align)
  }

  /** The parts of a `typedescription_t` that matter here. An output takes `outputSize` bytes but declares none. */
  datatype Desc = Desc(fieldType: FieldType, name: string, offset: nat, count: nat, output: bool, sizeInBytes: nat)

  const POINTER_SIZE := 4

  /** The platform: which function pointers it has, and the size of an entity output. */
  datatype Platform = Platform(posix: bool, outputSize: nat)

  function DescElements(p: Platform, d: Desc): seq<Element<FieldType>> {
    if d.output then (if p.outputSize == 0 then [] else [Element(d.fieldType, d.offset, p.outputSize, POINTER_SIZE)])
    else if FieldSize(d.fieldType, p.posix) == 0 then []
    else ArrayElements(d.fieldType, d.offset, FieldSize(d.fieldType, p.posix), FieldAlign(d.fieldType, p.posix), d.count)
  }

  function DescsElements(p: Platform, descs: seq<Desc>): seq<Element<FieldType>> {
    if descs == [] then []
    else DescsElements(p, descs[..|descs| - 1]) + DescElements(p, descs[|descs| - 1])
  }

  // ---------- Defining fields ----------

  class DataMapContainer {
    const platform: Platform
    const startOffset: nat
    var descs: seq<Desc>
    var size: nat
    var hasDesc: bool

    /** `BeginDataDesc`. */
    constructor (platform: Platform, startOffset: nat)
      ensures Valid() && this.platform == platform && this.startOffset == startOffset
      ensures descs == [] && size == 0 && !hasDesc
    {
      this.platform, this.startOffset := platform, startOffset;
      descs, size, hasDesc := [], 0, false;
    }

    /** The fields defined so far lie one after the other behind the start offset, each aligned. */
    ghost predicate Valid()
      reads this
    {
      LaidOut(DescsElements(platform, descs), startOffset, startOffset + size)
    }

    /** `DefineFieldAndGetIndex`: the field goes to the next aligned offset (`ByteLayout.AlignUpIsNext`). */
    method DefineField(name: string, fieldType: FieldType, count: nat) returns (index: nat)
      requires Valid()
      modifies this`descs, this`size
      ensures Valid() && index == |old(descs)| && |descs| == index + 1 && descs[..index] == old(descs)
      ensures var d := descs[index];
              && d.name == name && d.fieldType == fieldType && d.count == count && !d.output
              && d.sizeInBytes == FieldSize(fieldType, platform.posix) * count
              && d.offset == AlignedOffset(startOffset + old(size), FieldAlign(fieldType, platform.posix))
              && d.offset + d.sizeInBytes == startOffset + size
    {
      hide DescsElements, FieldSize, FieldAlign, LaidOut;
      var fieldOffset := AlignedOffset(startOffset + size, FieldAlign(fieldType, platform.posix));
      var padding := fieldOffset - (startOffset + size);
      var fieldSizeInBytes := FieldSize(fieldType, platform.posix) * count;
      var d := Desc(fieldType, name, fieldOffset, count, false, fieldSizeInBytes);
      DescAdded(platform, descs, d, startOffset, startOffset + size, fieldOffset + fieldSizeInBytes);
      descs := descs + [d];
      size := size + padding + fieldSizeInBytes;
      index := |descs| - 1;
    }

    /** `DefineOutput`. */
    method DefineOutput(name: string)
      requires Valid()
      modifies this`descs, this`size
      ensures Valid() && |descs| == |old(descs)| + 1 && descs[..|old(descs)|] == old(descs)
      ensures var d := descs[|old(descs)|];
              && d.name == name && d.fieldType == FieldCustom && d.count == 1 && d.output && d.sizeInBytes == 0
              && d.offset == AlignedOffset(startOffset + old(size), POINTER_SIZE) && d.offset % 4 == 0
              && d.offset < startOffset + old(size) + 4
              && d.offset + platform.outputSize == startOffset + size
    {
      hide DescsElements, LaidOut;
      var fieldOffset := AlignedOffset(startOffset + size, POINTER_SIZE);
      var padding := fieldOffset - (startOffset + size);
      var d := Desc(FieldCustom, name, fieldOffset, 1, true, 0);
      DescAdded(platform, descs, d, startOffset, startOffset + size, fieldOffset + platform.outputSize);
      descs := descs + [d];
      size := size + padding + platform.outputSize;
    }

    /** `EndDataDesc`: the size is rounded up to a pointer; an empty table gets one field of no size. */
    method EndDataDesc()
      requires Valid()
      modifies this
      ensures Valid() && hasDesc && size == AlignUp(old(size), POINTER_SIZE)
      ensures size % 4 == 0 && old(size) <= size < old(size) + 4
      ensures descs == if old(descs) == [] then [Desc(FieldVoid, "", 0, 0, false, 0)] else old(descs)
    {
      hasDesc := true;
      AlignUpIsNext(size, POINTER_SIZE);
      LaidOutWider(DescsElements(platform, descs), startOffset, startOffset + size, startOffset + AlignUp(size, POINTER_SIZE));
      if |descs| == 0 {
        descs := descs + [Desc(FieldVoid, "", 0, 0, false, 0)];
        assert descs[..0] == [];
      }
      size := AlignedOffset(size, POINTER_SIZE);
    }
  }

  /** A field behind all others keeps the layout. */
  lemma DescAdded(p: Platform, descs: seq<Desc>, d: Desc, lo: nat, mid: nat, hi: nat)
    requires LaidOut(DescsElements(p, descs), lo, mid) && mid <= d.offset
    requires if d.output then d.offset % POINTER_SIZE == 0 && hi == d.offset + p.outputSize
             else hi == d.offset + FieldSize(d.fieldType, p.posix) * d.count
                  && (0 < FieldAlign(d.fieldType, p.posix) ==> d.offset % FieldAlign(d.fieldType, p.posix) == 0)
    ensures LaidOut(DescsElements(p, descs + [d]), lo, hi)
  {
    assert (descs + [d])[..|descs|] == descs;
    if !d.output && FieldSize(d.fieldType, p.posix) != 0 {
      ArrayLaidOut(d.fieldType, d.offset, FieldSize(d.fieldType, p.posix), FieldAlign(d.fieldType, p.posix), d.count, mid);
    } else {
      FewLaidOut(p, d, mid, hi);
    }
    LaidOutConcat(DescsElements(p, descs), DescElements(p, d), lo, mid, hi);
  }

  lemma FewLaidOut(p: Platform, d: Desc, mid: nat, hi: nat)
    requires mid <= d.offset && (d.output ==> d.offset % POINTER_SIZE == 0 && hi == d.offset + p.outputSize)
    requires !d.output ==> FieldSize(d.fieldType, p.posix) == 0 && hi == d.offset + FieldSize(d.fieldType, p.posix) * d.count
    ensures LaidOut(DescElements(p, d), mid, hi)
  {
    var s := DescElements(p, d);
    assert !d.output ==> FieldSize(d.fieldType, p.posix) * d.count == 0;
    forall i | 0 <= i < |s|
      ensures ElementOk(s[i], mid, hi)
    {
    }
  }

  // ---------- Chains of factories ----------

  /** A factory over its base. `start` is where its data was told to begin; `size` is what it declares. */
  datatype Chain = Root(rawSize: nat) | Factory(base: Chain, start: nat, descs: seq<Desc>, size: nat, hasDesc: bool)

  /** `GetEntitySize`. */
  function EntitySize(c: Chain): nat {
    match c
    case Root(rawSize) => rawSize
    case Factory(base, _, _, size, hasDesc) => EntitySize(base) + if hasDesc then size else 0
  }

  function ChainElements(p: Platform, c: Chain): seq<Element<FieldType>> {
    match c
    case Root(_) => []
    case Factory(base, _, descs, _, hasDesc) => ChainElements(p, base) + if hasDesc then DescsElements(p, descs) else []
  }

  /** Every level is laid out as its container laid it out. */
  ghost predicate ChainOk(p: Platform, c: Chain) {
    match c
    case Root(_) => true
    case Factory(base, start, descs, size, hasDesc) =>
      ChainOk(p, base) && (hasDesc ==> LaidOut(DescsElements(p, descs), start, start + size))
  }

  /** Every level begins where the entity of its base ends. */
  predicate StartsAtBases(c: Chain) {
    match c
    case Root(_) => true
    case Factory(base, start, _, _, hasDesc) => StartsAtBases(base) && (hasDesc ==> start == EntitySize(base))
  }

  /** Then all declared fields of the chain are aligned, pairwise disjoint and inside the entity. */
  lemma {:induction false} ChainLaidOut(p: Platform, c: Chain)
    requires ChainOk(p, c) && StartsAtBases(c)
    ensures LaidOut(ChainElements(p, c), 0, EntitySize(c))
  {
    if c.Factory? {
      ChainLaidOut(p, c.base);
      if c.hasDesc {
        LaidOutConcat(ChainElements(p, c.base), DescsElements(p, c.descs), 0, EntitySize(c.base), EntitySize(c));
      } else {
        assert ChainElements(p, c.base) + [] == ChainElements(p, c.base);
      }
    }
  }

  /** Where the data of the last level end that has described any, or the entity of the game. */
  ghost function DataEnd(c: Chain): nat {
    if c.Root? then c.rawSize else if c.hasDesc then c.start + c.size else DataEnd(c.base)
  }

  /** The entity ends with its data: levels that have described none add nothing. */
  lemma {:induction false} EntityEndsWithData(c: Chain)
    requires StartsAtBases(c)
    ensures EntitySize(c) == DataEnd(c)
  {
    if c.Factory? {
      EntityEndsWithData(c.base);
    }
  }

  /** Every level's block of data lies behind the entity of its base, and inside its own entity. */
  predicate BlocksFit(c: Chain) {
    match c
    case Root(_) => true
    case Factory(base, start, _, size, hasDesc) =>
      BlocksFit(base) && (hasDesc ==> EntitySize(base) <= start && start + size <= EntitySize(c))
  }

  /** They all do if and only if every level begins where the entity of its base ends. */
  lemma {:induction false} BlocksFitIff(c: Chain)
    ensures BlocksFit(c) <==> StartsAtBases(c)
  {
    if c.Factory? {
      BlocksFitIff(c.base);
      if c.hasDesc {
        StartDecides(c);
      }
    }
  }

  /** A base that has grown since its size was taken: the block of the derived level begins inside its base. One
      that has shrunk: the block sticks out of the entity. */
  lemma StartDecides(c: Chain)
    requires c.Factory? && c.hasDesc
    ensures c.start == EntitySize(c.base) <==> EntitySize(c.base) <= c.start && c.start + c.size <= EntitySize(c)
    ensures c.start > EntitySize(c.base) <==> c.start + c.size > EntitySize(c)
  {
  }

  /** A base of two integers that was redefined with one, after a derived factory had begun its own data: the
      integer of the derived factory lies past the end of the entity. */
  lemma StaleStartSticksOut(p: Platform)
    ensures var a, b := Desc(FieldInteger, "a", 100, 1, false, 4), Desc(FieldInteger, "b", 108, 1, false, 4);
            var derived := Factory(Factory(Root(100), 100, [a], 4, true), 108, [b], 4, true);
            && ChainOk(p, derived) && !BlocksFit(derived) && EntitySize(derived) == 108
            && ChainElements(p, derived) == [Element(FieldInteger, 100, 4, 4), Element(FieldInteger, 108, 4, 4)]
  {
    var a, b := Desc(FieldInteger, "a", 100, 1, false, 4), Desc(FieldInteger, "b", 108, 1, false, 4);
    var base := Factory(Root(100), 100, [a], 4, true);
    NothingAtRoot(p, 100);
    OneIntegerLaidOut(p, a);
    OneIntegerLaidOut(p, b);
    LevelAdded(p, Root(100), 100, [a], 4);
    LevelAdded(p, base, 108, [b], 4);
    assert [] + [Element(FieldInteger, 100, 4, 4)] == [Element(FieldInteger, 100, 4, 4)] && EntitySize(base) == 104;
    hide ChainOk, ChainElements, DescsElements, LaidOut;
  }

  lemma NothingAtRoot(p: Platform, size: nat)
    ensures ChainOk(p, Root(size)) && ChainElements(p, Root(size)) == []
  {
  }

  lemma LevelAdded(p: Platform, base: Chain, start: nat, descs: seq<Desc>, size: nat)
    requires ChainOk(p, base) && LaidOut(DescsElements(p, descs), start, start + size)
    ensures var c := Factory(base, start, descs, size, true);
            ChainOk(p, c) && ChainElements(p, c) == ChainElements(p, base) + DescsElements(p, descs)
  {
  }

  lemma OneIntegerLaidOut(p: Platform, d: Desc)
    requires d == Desc(FieldInteger, d.name, d.offset, 1, false, 4) && d.offset % 4 == 0
    ensures DescsElements(p, [d]) == [Element(FieldInteger, d.offset, 4, 4)]
    ensures LaidOut(DescsElements(p, [d]), d.offset, d.offset + 4)
  {
    OneInteger(p, [], d);
    assert [] + [d] == [d] && DescsElements(p, []) == [];
    assert [] + [Element(FieldInteger, d.offset, 4, 4)] == [Element(FieldInteger, d.offset, 4, 4)];
  }

  /** A base of one integer that was redefined with two, after a derived factory had begun its own data: the
      second integer of the base and the one of the derived factory share their bytes. */
  lemma StaleStartOverlaps(p: Platform)
    ensures var a, b := Desc(FieldInteger, "a", 100, 1, false, 4), Desc(FieldInteger, "b", 104, 1, false, 4);
            var derived := Factory(Factory(Root(100), 100, [a, b], 8, true), 104, [b], 4, true);
            && ChainOk(p, derived) && !StartsAtBases(derived)
            && ChainElements(p, derived) == [Element(FieldInteger, 100, 4, 4), Element(FieldInteger, 104, 4, 4),
                                             Element(FieldInteger, 104, 4, 4)]
  {
    var a, b := Desc(FieldInteger, "a", 100, 1, false, 4), Desc(FieldInteger, "b", 104, 1, false, 4);
    var base := Factory(Root(100), 100, [a, b], 8, true);
    var both := [Element(FieldInteger, 100, 4, 4), Element(FieldInteger, 104, 4, 4)];
    NothingAtRoot(p, 100);
    OneIntegerLaidOut(p, a);
    OneIntegerLaidOut(p, b);
    OneInteger(p, [a], b);
    assert [a] + [b] == [a, b];
    DescAdded(p, [a], b, 100, 104, 108);
    assert DescsElements(p, [a, b]) == both;
    LevelAdded(p, Root(100), 100, [a, b], 8);
    LevelAdded(p, base, 104, [b], 4);
    assert [] + both == both && EntitySize(base) == 108;
    hide ChainOk, ChainElements, DescsElements, LaidOut;
  }

  lemma OneInteger(p: Platform, descs: seq<Desc>, d: Desc)
    requires d == Desc(FieldInteger, d.name, d.offset, 1, false, 4)
    ensures DescsElements(p, descs + [d]) == DescsElements(p, descs) + [Element(FieldInteger, d.offset, 4, 4)]
  {
    assert (descs + [d])[..|descs|] == descs;
    assert DescElements(p, d) == [Element(FieldInteger, d.offset, 4, 4)];
  }

  // ---------- Access ----------

  /** `GetDataOffset`. */
  function DataOffset(d: Desc, actualOffset: int, element: int): Option<int> {
    if element < 0 || d.count <= element then None else Some(actualOffset + element * (d.sizeInBytes / d.count))
  }

  /** The element that a descriptor and an index designate is the one that the layout put there. */
  lemma DataOffsetIsElement(p: Platform, d: Desc, element: int)
    requires !d.output && d.sizeInBytes == FieldSize(d.fieldType, p.posix) * d.count && FieldSize(d.fieldType, p.posix) != 0
    requires 0 <= element < d.count
    ensures DataOffset(d, d.offset, element) == Some(DescElements(p, d)[element].offset)
  {
    var n := FieldSize(d.fieldType, p.posix);
    QuotientIs(n * d.count, d.count, n, 0);
  }

  /** How wide `SetObjectData` writes, for the types it knows. */
  function Width(t: FieldType): nat {
    match t
    case FieldTick => 4
    case FieldModelIndex => 4
    case FieldMaterialIndex => 4
    case FieldInteger => 4
    case FieldColor32 => 4
    case FieldCharacter => 1
    case FieldBoolean => 1
    case FieldShort => 2
    case _ => 0
  }

  /** An integer as its field type keeps it. */
  function Truncated(t: FieldType, data: int): int {
    if t.FieldBoolean? then (if data != 0 then 1 else 0) else Wrap(data, Width(t))
  }

  function Stored(t: FieldType, data: int): (s: seq<byte>)
    ensures |s| == if t.FieldBoolean? then 1 else Width(t)
  {
    if t.FieldBoolean? then [if data != 0 then 1 else 0] else LowBytes(data, Width(t))
  }

  function Loaded(t: FieldType, s: seq<byte>): int
    requires |s| == if t.FieldBoolean? then 1 else Width(t)
  {
    if t.FieldBoolean? then (if s[0] != 0 then 1 else 0) else Signed(s)
  }

  /** What is stored reads back as the value truncated to the type. */
  lemma LoadedStored(t: FieldType, data: int)
    ensures Loaded(t, Stored(t, data)) == Truncated(t, data)
  {
    IntegersReadBack(data, Width(t));
  }

  /** Every known type has exactly as many bytes as its elements have. */
  lemma WidthIsSize(t: FieldType, posix: bool)
    requires 0 < Width(t)
    ensures Width(t) == FieldSize(t, posix)
  {
  }

  /** `SetObjectData` for a field that has been found: fails without effect for an element out of range or a
      type that is no integer. */
  method SetObjectData(obj: array<byte>, d: Desc, data: int, element: int) returns (ok: bool)
    requires 0 <= element < d.count && 0 < Width(d.fieldType) ==>
               0 <= DataOffset(d, d.offset, element).value <= obj.Length - Width(d.fieldType)
    modifies obj
    ensures ok <==> 0 <= element < d.count && 0 < Width(d.fieldType)
    ensures ok <==> 0 <= element < d.count && IsInteger(d.fieldType)
    ensures !ok ==> obj[..] == old(obj[..])
    ensures ok ==>
              var at := DataOffset(d, d.offset, element).value;
              && obj[at..at + Width(d.fieldType)] == Stored(d.fieldType, data)
              && forall k :: 0 <= k < obj.Length && !(at <= k < at + Width(d.fieldType)) ==> obj[k] == old(obj[k])
  {
    hide LowBytes;
    var offset := DataOffset(d, d.offset, element);
    if offset.None? || Width(d.fieldType) == 0 {
      return false;
    }
    var src := Stored(d.fieldType, data);
    forall k | 0 <= k < |src| {
      obj[offset.value + k] := src[k];
    }
    ok := true;
  }

  /** `GetObjectData` for a field that has been found. */
  method GetObjectData(obj: array<byte>, d: Desc, element: int) returns (data: Option<int>)
    requires 0 <= element < d.count && 0 < Width(d.fieldType) ==>
               0 <= DataOffset(d, d.offset, element).value <= obj.Length - Width(d.fieldType)
    ensures data.Some? <==> 0 <= element < d.count && 0 < Width(d.fieldType)
    ensures data.Some? ==>
              var at := DataOffset(d, d.offset, element).value;
              data.value == Loaded(d.fieldType, obj[at..at + Width(d.fieldType)])
  {
    var offset := DataOffset(d, d.offset, element);
    if offset.None? || Width(d.fieldType) == 0 {
      return None;
    }
    data := Some(Loaded(d.fieldType, obj[offset.value..offset.value + Width(d.fieldType)]));
  }

  /** Setting an element of a laid-out chain and getting it back gives the truncated value, and every other
      element of the chain keeps its bytes. */
  method SetThenGet(p: Platform, c: Chain, obj: array<byte>, d: Desc, data: int, element: int, ghost i: nat)
    returns (back: Option<int>)
    requires ChainOk(p, c) && StartsAtBases(c) && EntitySize(c) <= obj.Length
    requires !d.output && d.sizeInBytes == FieldSize(d.fieldType, p.posix) * d.count
    requires 0 <= element < d.count && 0 < Width(d.fieldType)
    requires i < |ChainElements(p, c)| && ChainElements(p, c)[i] == DescElements(p, d)[element]
    modifies obj
    ensures back == Some(Truncated(d.fieldType, data))
    ensures d.fieldType.FieldBoolean? ==> back == Some(if data == 0 then 0 else 1)
    ensures forall j :: 0 <= j < |ChainElements(p, c)| && j != i ==>
              var e := ChainElements(p, c)[j]; BytesOf(obj[..], e) == BytesOf(old(obj[..]), e)
  {
    WidthIsSize(d.fieldType, p.posix);
    DataOffsetIsElement(p, d, element);
    ChainLaidOut(p, c);
    ghost var s := ChainElements(p, c);
    assert ElementOk(s[i], 0, EntitySize(c));
    ghost var was := obj[..];
    var ok := SetObjectData(obj, d, data, element);
    back := GetObjectData(obj, d, element);
    LoadedStored(d.fieldType, data);
    forall j | 0 <= j < |s| && j != i
      ensures BytesOf(obj[..], s[j]) == BytesOf(was, s[j])
    {
      AreApart(s, i, j, 0, EntitySize(c));
      assert ElementOk(s[j], 0, EntitySize(c));
      SameElsewhere(was, obj[..], s[i], s[j]);
    }
  }

  lemma SameElsewhere(was: seq<byte>, now: seq<byte>, e: Element<FieldType>, d: Element<FieldType>)
    requires |was| == |now| && d.offset + d.size <= |was|
    requires d.offset + d.size <= e.offset || e.offset + e.size <= d.offset
    requires forall k :: 0 <= k < |was| && !(e.offset <= k < e.offset + e.size) ==> now[k] == was[k]
    ensures now[d.offset..d.offset + d.size] == was[d.offset..d.offset + d.size]
  {
  }

  function BytesOf(obj: seq<byte>, e: Element<FieldType>): seq<byte> {
    if e.offset + e.size <= |obj| then obj[e.offset..e.offset + e.size] else []
  }
}
