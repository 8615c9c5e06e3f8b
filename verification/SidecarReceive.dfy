/** What a network update writes into a sidecar (extension/sourcesdk/cbasenpcrecvtable.cpp:131-171). Machine
    words are little-endian. */
module SidecarReceive {
  import opened ByteLayout
  import opened MachineWords
  import opened Wrappers
  import opened Sidecar

  /** `DVariant`: the bytes of the float and of the vector are taken as they come. */
  datatype Value = Value(number: int, floatBytes: seq<byte>, vector: seq<byte>, text: Option<seq<byte>>)

  ghost predicate ValueOk(v: Value) {
    |v.floatBytes| == 4 && |v.vector| == 12
  }

  /** How handles are packed on the wire and in memory; these sizes belong to the engine. */
  datatype Wire = Wire(invalid: nat, edictBits: nat, entryBits: nat)

  /** The characters before the first NUL. */
  function CString(s: seq<byte>): (r: seq<byte>)
    ensures r <= s
    ensures forall i :: 0 <= i < |r| ==> r[i] != 0
    ensures |r| < |s| ==> s[|r|] == 0
  {
    if s == [] || s[0] == 0 then [] else [s[0]] + CString(s[1..])
  }

  function Take<T>(s: seq<T>, n: nat): seq<T> {
    if |s| <= n then s else s[..n]
  }

  const UINT32 := 0x1_0000_0000

  /** A handle on the wire, unpacked into its words in memory. */
  function UnpackHandle(w: Wire, v: int): int {
    var u := v % UINT32;
    if u == w.invalid then UINT32 - 1 else u % Pow2(w.edictBits) + u / Pow2(w.edictBits) * Pow2(w.entryBits)
  }

  /** The bytes that an update writes at the start of an element. */
  function Encode(w: Wire, kind: Kind, size: nat, v: Value): seq<byte> {
    match kind
    case Bool => [if v.number != 0 then 1 else 0]
    case Char => LowBytes(v.number, 1)
    case Short => LowBytes(v.number, 2)
    case Float => v.floatBytes
    case Time => v.floatBytes
    case Angle => v.floatBytes
    case Vector => v.vector
    case QAngle => v.vector
    case VectorXY => Take(v.vector, 8)
    case StringT => Take(CString(if v.text.None? then [] else v.text.value), if size == 0 then 0 else size - 1) + [0]
    case EHandle => LowBytes(UnpackHandle(w, v.number), 4)
    case _ => LowBytes(v.number, 4)
  }

  ghost predicate SizeOk(e: Element<Kind>) {
    SizeFits(e.kind, e.size)
  }

  lemma EncodeFits(w: Wire, e: Element<Kind>, v: Value)
    requires SizeOk(e) && ValueOk(v)
    ensures |Encode(w, e.kind, e.size, v)| <= e.size
    ensures !e.kind.StringT? ==> |Encode(w, e.kind, e.size, v)| == e.size
  {
  }

  /** What the bytes of an element mean after an update with this value. */
  ghost predicate Holds(w: Wire, e: Element<Kind>, v: Value, out: seq<byte>) {
    && |out| == e.size
    && match e.kind
       case Bool => out == if v.number == 0 then [0] else [1]
       case Float => out == v.floatBytes
       case Time => out == v.floatBytes
       case Angle => out == v.floatBytes
       case Vector => out == v.vector
       case QAngle => out == v.vector
       case VectorXY => |out| == 8 && out <= v.vector
       case StringT => HoldsText(out, if v.text.None? then [] else v.text.value)
       case EHandle => HoldsHandle(w, v.number, Unsigned(out))
       case _ => Signed(out) == Wrap(v.number, e.size)
  }

  /** It ends within the element, and reads as all of the text up to its own end, or as much of it as there is room. */
  ghost predicate HoldsText(out: seq<byte>, text: seq<byte>) {
    && |CString(out)| < |out| && CString(out) <= CString(text)
    && (|CString(out)| < |out| - 1 ==> CString(out) == CString(text))
  }

  /** The word in memory splits into entry and serial number of the handle on the wire, as far as 32 bits hold the
      serial number. All ones stand for the invalid handle, and for no other. */
  ghost predicate HoldsHandle(w: Wire, number: int, word: nat) {
    var u := number % 0x1_0000_0000;
    && (u == w.invalid ==> word == 0xFFFF_FFFF)
    && (u != w.invalid && w.edictBits < w.entryBits <= 32 ==>
          && word != 0xFFFF_FFFF
          && word % Pow2(w.entryBits) == u % Pow2(w.edictBits)
          && word / Pow2(w.entryBits) == u / Pow2(w.edictBits) % Pow2(32 - w.entryBits))
  }

  lemma HandleHolds(w: Wire, number: int)
    ensures HoldsHandle(w, number, Unsigned(LowBytes(UnpackHandle(w, number), 4)))
  {
    hide Pow2, LowBytes, Unsigned;
    var u, word := number % UINT32, Unsigned(LowBytes(UnpackHandle(w, number), 4));
    WordWidths();
    UnsignedOfLowBytes(UnpackHandle(w, number), 4);
    if u == w.invalid {
      assert word == 0xFFFF_FFFF;
    } else if w.edictBits < w.entryBits <= 32 {
      WordSizes(w.edictBits, w.entryBits);
      HandleSplits(u, Pow2(w.edictBits), Pow2(w.entryBits), Pow2(32 - w.entryBits));
    }
  }

  lemma WordSizes(m: nat, n: nat)
    requires m < n <= 32
    ensures Pow2(m) + 1 <= Pow2(n) && Pow2(n) * Pow2(32 - n) == 0x1_0000_0000
  {
    hide Pow2;
    WordWidths();
    Pow2Sum(n, 32 - n);
    Pow2Sum(m, n - m);
    Doubles(n - m);
    Doubled(Pow2(m), Pow2(n - m));
  }

  lemma HandleSplits(u: nat, e: nat, f: nat, g: nat)
    requires 1 <= e && e + 1 <= f && 1 <= g && f * g == 0x1_0000_0000
    ensures var word := (u % e + u / e * f) % 0x1_0000_0000;
            word != 0xFFFF_FFFF && word % f == u % e && word / f == u / e % g
  {
    WordSplits(u % e, u / e, f, g);
  }

  lemma Doubles(n: nat)
    requires 0 < n
    ensures 2 <= Pow2(n)
  {
  }

  lemma Doubled(a: nat, b: nat)
    requires 1 <= a && 2 <= b
    ensures a + 1 <= a * b
  {
    assert a * 2 <= a * b;
  }

  /** A word of low and high part, cut to its width: the high part is cut. */
  lemma WordSplits(low: nat, high: nat, f: nat, g: nat)
    requires low + 1 < f && 0 < g
    ensures var word := (low + high * f) % (f * g);
            word % f == low && word / f == high % g && word != f * g - 1
  {
    var q, r := high / g, high % g;
    assert low + high * f == (f * g) * q + (f * r + low) by {
      assert high * f == (g * q + r) * f;
    }
    Below(f, g, r, low);
    QuotientIs(low + high * f, f * g, q, f * r + low);
    QuotientIs(f * r + low, f, r, low);
    if f * r + low == f * g - 1 {
      QuotientIs(f * g - 1, f, g - 1, f - 1);
    }
  }

  /** What is encoded means what it should. Text may leave bytes behind it as they are. */
  lemma EncodeHolds(w: Wire, e: Element<Kind>, v: Value, out: seq<byte>)
    requires SizeOk(e) && ValueOk(v) && |out| == e.size && Encode(w, e.kind, e.size, v) <= out
    ensures Holds(w, e, v, out)
  {
    hide Encode, CString, Take, HoldsText, HoldsHandle, LowBytes, Signed, Wrap, Unsigned;
    var code := Encode(w, e.kind, e.size, v);
    EncodeFits(w, e, v);
    if e.kind.StringT? {
      EncodeText(w, e, v);
      TextHolds(if v.text.None? then [] else v.text.value, out);
    } else {
      assert out == code;
      EncodeWord(w, e, v);
      HandleHolds(w, v.number);
      IntegersReadBack(v.number, e.size);
    }
  }

  lemma EncodeWord(w: Wire, e: Element<Kind>, v: Value)
    requires SizeOk(e) && ValueOk(v) && !e.kind.StringT?
    ensures Encode(w, e.kind, e.size, v) ==
              match e.kind
              case Bool => [if v.number != 0 then 1 else 0]
              case Float => v.floatBytes
              case Time => v.floatBytes
              case Angle => v.floatBytes
              case Vector => v.vector
              case QAngle => v.vector
              case VectorXY => v.vector[..8]
              case EHandle => LowBytes(UnpackHandle(w, v.number), 4)
              case _ => LowBytes(v.number, e.size)
  {
  }

  lemma TextHolds(text: seq<byte>, out: seq<byte>)
    requires out != [] && Take(CString(text), |out| - 1) + [0] <= out
    ensures HoldsText(out, text)
  {
    var cut := Take(CString(text), |out| - 1);
    hide CString;
    assert out == cut + [0] + out[|cut| + 1..];
    TextReadsBack(text, out[|cut| + 1..], |out| - 1);
  }

  /** `Receive` for element i of a table that `BuildField` has built: it writes the encoded value and touches no
      other element of the chain. */
  method Receive(bytes: array<byte>, found: bool, w: Wire, e: Element<Kind>, v: Value, ghost t: Table, ghost i: nat)
    requires TableOk(t) && SidecarSize(t) <= bytes.Length && ValueOk(v)
    requires i < |AllElements(t)| && AllElements(t)[i] == e
    modifies bytes
    ensures !found ==> bytes[..] == old(bytes[..])
    ensures found ==>
              var out := Encode(w, e.kind, e.size, v);
              && e.offset + |out| <= bytes.Length && bytes[e.offset..e.offset + |out|] == out
              && forall k :: 0 <= k < bytes.Length && !(e.offset <= k < e.offset + |out|) ==> bytes[k] == old(bytes[k])
    ensures found ==> Holds(w, e, v, ElementBytes(bytes[..], e))
    ensures var s := AllElements(t);
            forall j :: 0 <= j < |s| && j != i ==> ElementBytes(bytes[..], s[j]) == ElementBytes(old(bytes[..]), s[j])
  {
    hide Encode, LaidOut, SizeFits, AllElements, TableOk, Holds;
    if !found {
      return;
    }
    ghost var s := AllElements(t);
    ChainLaidOut(t);
    LaidOutWider(s, 0, SidecarSize(t), bytes.Length);
    ElementsSized(t);
    IsInside(s, i, bytes.Length);
    EncodeFits(w, e, v);
    ghost var was := bytes[..];
    Write(bytes, w, e, v);
    EncodeHolds(w, e, v, ElementBytes(bytes[..], e));
    forall j | 0 <= j < |s| && j != i
      ensures ElementBytes(bytes[..], s[j]) == ElementBytes(old(bytes[..]), s[j])
    {
      AreApart(s, i, j, 0, bytes.Length);
      IsInside(s, j, bytes.Length);
      SameElsewhere(was, bytes[..], e, s[j]);
    }
  }

  lemma SameElsewhere(was: seq<byte>, now: seq<byte>, e: Element<Kind>, d: Element<Kind>)
    requires |was| == |now| && d.offset + d.size <= |was|
    requires d.offset + d.size <= e.offset || e.offset + e.size <= d.offset
    requires forall k :: 0 <= k < |was| && !(e.offset <= k < e.offset + e.size) ==> now[k] == was[k]
    ensures now[d.offset..d.offset + d.size] == was[d.offset..d.offset + d.size]
  {
  }

  /** Lines 145-170: the switch. */
  method Write(bytes: array<byte>, w: Wire, e: Element<Kind>, v: Value)
    requires e.offset + e.size <= bytes.Length && SizeOk(e) && |Encode(w, e.kind, e.size, v)| <= e.size
    modifies bytes
    ensures var out := Encode(w, e.kind, e.size, v);
            && e.offset + |out| <= bytes.Length && bytes[e.offset..e.offset + |out|] == out
            && forall k :: 0 <= k < bytes.Length && !(e.offset <= k < e.offset + |out|) ==> bytes[k] == old(bytes[k])
  {
    hide Encode, SizeOk, CString, Take;
    if e.kind.StringT? {
      EncodeText(w, e, v);
      CopyText(bytes, e.offset, if v.text.None? then [] else v.text.value, e.size);
    } else {
      CopyBytes(bytes, e.offset, Encode(w, e.kind, e.size, v));
    }
  }

  lemma EncodeText(w: Wire, e: Element<Kind>, v: Value)
    requires e.kind.StringT? && SizeOk(e)
    ensures 1 <= e.size
    ensures Encode(w, e.kind, e.size, v) == Take(CString(if v.text.None? then [] else v.text.value), e.size - 1) + [0]
  {
  }

  lemma IsInside(s: seq<Element<Kind>>, i: nat, hi: nat)
    requires LaidOut(s, 0, hi) && i < |s|
    ensures s[i].offset + s[i].size <= hi
  {
    assert ElementOk(s[i], 0, hi);
  }

  function ElementBytes(bytes: seq<byte>, e: Element<Kind>): seq<byte>
  {
    if e.offset + e.size <= |bytes| then bytes[e.offset..e.offset + e.size] else []
  }

  /** `memcpy`. */
  method CopyBytes(bytes: array<byte>, offset: nat, src: seq<byte>)
    requires offset + |src| <= bytes.Length
    modifies bytes
    ensures bytes[offset..offset + |src|] == src
    ensures forall k :: 0 <= k < bytes.Length && !(offset <= k < offset + |src|) ==> bytes[k] == old(bytes[k])
  {
    forall k | 0 <= k < |src| {
      bytes[offset + k] := src[k];
    }
  }

  /** Lines 152-156: copy up to the terminator, or as much as leaves room for one. */
  method CopyText(bytes: array<byte>, offset: nat, text: seq<byte>, size: nat)
    requires 1 <= size && offset + size <= bytes.Length
    modifies bytes
    ensures var out := Take(CString(text), size - 1) + [0];
            && |out| <= size && bytes[offset..offset + |out|] == out
            && forall k :: 0 <= k < bytes.Length && !(offset <= k < offset + |out|) ==> bytes[k] == old(bytes[k])
  {
    var n := 0;
    while n + 1 < size && n < |text| && text[n] != 0
      invariant 0 <= n <= |text| && n < size && forall i :: 0 <= i < n ==> text[i] != 0
    {
      n := n + 1;
    }
    PrefixOfCString(text, n);
    assert text[..n] == Take(CString(text), size - 1);
    CopyBytes(bytes, offset, text[..n] + [0]);
  }

  lemma {:induction false} PrefixOfCString(s: seq<byte>, n: nat)
    requires n <= |s| && forall i :: 0 <= i < n ==> s[i] != 0
    ensures n <= |CString(s)| && CString(s)[..n] == s[..n]
  {
    if 0 < n {
      assert s[0] != 0;
      PrefixOfCString(s[1..], n - 1);
    }
  }

  /** Text comes back cut to what fits before the terminator. */
  lemma {:induction false} TextReadsBack(text: seq<byte>, rest: seq<byte>, n: nat)
    ensures CString(Take(CString(text), n) + [0] + rest) == Take(CString(text), n)
  {
    ReadsUpToZero(Take(CString(text), n), rest);
  }

  lemma {:induction false} ReadsUpToZero(s: seq<byte>, rest: seq<byte>)
    requires forall i :: 0 <= i < |s| ==> s[i] != 0
    ensures CString(s + [0] + rest) == s
  {
    if s == [] {
      assert ([] + [0] + rest)[0] == 0;
    } else {
      ReadsUpToZero(s[1..], rest);
      assert (s + [0] + rest)[1..] == s[1..] + [0] + rest;
    }
  }
}
