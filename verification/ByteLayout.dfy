/** Elements laid out one after the other in a block of bytes. */
module ByteLayout {

  /** `align` is a power of two up to 8. */
  datatype Element<K> = Element(kind: K, offset: nat, size: nat, align: nat)

  predicate IsAlignment(a: nat) {
    a == 1 || a == 2 || a == 4 || a == 8
  }

  /** `(n + a - 1) & ~(a - 1)`, which is also `n + (~(n - 1) & (a - 1))`. */
  function AlignUp(n: nat, a: nat): nat
    requires IsAlignment(a)
  {
    (n + a - 1) / a * a
  }

  lemma AlignUpIsNext(n: nat, a: nat)
    requires IsAlignment(a)
    ensures n <= AlignUp(n, a) < n + a && AlignUp(n, a) % a == 0
    ensures forall m :: n <= m && m % a == 0 ==> AlignUp(n, a) <= m
  {
    if a == 2 {
      NextOf2(n);
    } else if a == 4 {
      NextOf4(n);
    } else if a == 8 {
      NextOf8(n);
    }
  }

  lemma NextOf2(n: nat)
    ensures n <= (n + 1) / 2 * 2 < n + 2 && (n + 1) / 2 * 2 % 2 == 0
    ensures forall m :: n <= m && m % 2 == 0 ==> (n + 1) / 2 * 2 <= m
  {
  }

  lemma NextOf4(n: nat)
    ensures n <= (n + 3) / 4 * 4 < n + 4 && (n + 3) / 4 * 4 % 4 == 0
    ensures forall m :: n <= m && m % 4 == 0 ==> (n + 3) / 4 * 4 <= m
  {
  }

  lemma NextOf8(n: nat)
    ensures n <= (n + 7) / 8 * 8 < n + 8 && (n + 7) / 8 * 8 % 8 == 0
    ensures forall m :: n <= m && m % 8 == 0 ==> (n + 7) / 8 * 8 <= m
  {
  }

  ghost predicate ElementOk<K>(e: Element<K>, lo: nat, hi: nat) {
    lo <= e.offset && e.offset + e.size <= hi && 1 <= e.size && IsAlignment(e.align) && e.offset % e.align == 0
  }

  ghost predicate ElementsOk<K>(s: seq<Element<K>>, lo: nat, hi: nat) {
    forall i {:trigger s[i]} :: 0 <= i < |s| ==> ElementOk(s[i], lo, hi)
  }

  /** The elements follow one another between the two bounds without overlap, each aligned. */
  ghost predicate LaidOut<K>(s: seq<Element<K>>, lo: nat, hi: nat) {
    && lo <= hi && ElementsOk(s, lo, hi)
    && (forall i, j :: 0 <= i < j < |s| ==> s[i].offset + s[i].size <= s[j].offset)
  }

  lemma LaidOutConcat<K>(s: seq<Element<K>>, t: seq<Element<K>>, lo: nat, mid: nat, hi: nat)
    requires LaidOut(s, lo, mid) && LaidOut(t, mid, hi)
    ensures LaidOut(s + t, lo, hi)
  {
    var r := s + t;
    forall i | 0 <= i < |r|
      ensures ElementOk(r[i], lo, hi)
    {
      assert if i < |s| then ElementOk(s[i], lo, mid) else ElementOk(t[i - |s|], mid, hi);
    }
    forall i, j | 0 <= i < j < |r|
      ensures r[i].offset + r[i].size <= r[j].offset
    {
      if i < |s| <= j {
        assert ElementOk(s[i], lo, mid) && ElementOk(t[j - |s|], mid, hi);
      }
    }
  }

  lemma LaidOutWider<K>(s: seq<Element<K>>, lo: nat, hi: nat, hi': nat)
    requires LaidOut(s, lo, hi) && hi <= hi'
    ensures LaidOut(s, lo, hi')
  {
    forall i | 0 <= i < |s|
      ensures ElementOk(s[i], lo, hi')
    {
      assert ElementOk(s[i], lo, hi);
    }
  }

  lemma ElementsOkParts<K>(s: seq<Element<K>>, t: seq<Element<K>>, lo: nat, hi: nat)
    requires ElementsOk(s + t, lo, hi)
    ensures ElementsOk(s, lo, hi) && ElementsOk(t, lo, hi)
  {
    forall i | 0 <= i < |s|
      ensures ElementOk(s[i], lo, hi)
    {
      assert (s + t)[i] == s[i];
    }
    forall i | 0 <= i < |t|
      ensures ElementOk(t[i], lo, hi)
    {
      assert (s + t)[|s| + i] == t[i];
    }
  }

  /** Two elements of a layout have no byte in common. */
  lemma AreApart<K>(s: seq<Element<K>>, i: nat, j: nat, lo: nat, hi: nat)
    requires LaidOut(s, lo, hi) && i < |s| && j < |s| && i != j
    ensures s[j].offset + s[j].size <= s[i].offset || s[i].offset + s[i].size <= s[j].offset
  {
  }

  // ---------- Arrays ----------

  /** count elements without gaps. */
  function ArrayElements<K>(kind: K, offset: nat, size: nat, align: nat, count: nat): (s: seq<Element<K>>)
    ensures |s| == count && forall i :: 0 <= i < |s| ==> s[i] == Element(kind, offset + i * size, size, align)
  {
    seq(count, i requires 0 <= i < count => Element(kind, offset + i * size, size, align))
  }

  lemma ArrayLaidOut<K>(kind: K, offset: nat, size: nat, align: nat, count: nat, lo: nat)
    requires 1 <= size && lo <= offset && IsAlignment(align) && offset % align == 0 && size % align == 0
    ensures LaidOut(ArrayElements(kind, offset, size, align, count), lo, offset + size * count)
  {
    var s, hi := ArrayElements(kind, offset, size, align, count), offset + size * count;
    forall i | 0 <= i < |s|
      ensures ElementOk(s[i], lo, hi)
    {
      Multiples(size, i, count);
      StaysAligned(offset, size, i, align);
    }
    forall i, j | 0 <= i < j < |s|
      ensures s[i].offset + s[i].size <= s[j].offset
    {
      Multiples(size, i, j);
    }
  }

  lemma Multiples(size: nat, i: nat, j: nat)
    requires i < j
    ensures 0 <= i * size && i * size + size <= j * size == size * j
  {
    assert (i + 1) * size <= j * size;
  }

  lemma {:induction false} StaysAligned(offset: nat, size: nat, i: nat, a: nat)
    requires IsAlignment(a) && offset % a == 0 && size % a == 0
    ensures (offset + i * size) % a == 0
  {
    if 0 < i {
      StaysAligned(offset, size, i - 1, a);
      assert offset + i * size == offset + (i - 1) * size + size;
      SumAligned(offset + (i - 1) * size, size, a);
    }
  }

  lemma SumAligned(m: nat, n: nat, a: nat)
    requires IsAlignment(a) && m % a == 0 && n % a == 0
    ensures (m + n) % a == 0
  {
    if a == 2 {
      SumOf2(m, n);
    } else if a == 4 {
      SumOf4(m, n);
    } else if a == 8 {
      SumOf8(m, n);
    }
  }

  lemma SumOf2(m: nat, n: nat)
    requires m % 2 == 0 && n % 2 == 0
    ensures (m + n) % 2 == 0
  {
  }

  lemma SumOf4(m: nat, n: nat)
    requires m % 4 == 0 && n % 4 == 0
    ensures (m + n) % 4 == 0
  {
  }

  lemma SumOf8(m: nat, n: nat)
    requires m % 8 == 0 && n % 8 == 0
    ensures (m + n) % 8 == 0
  {
  }

  /** The last element ends where the array does. */
  lemma ArrayFits<K>(kind: K, offset: nat, size: nat, align: nat, count: nat, lo: nat, hi: nat)
    requires ElementsOk(ArrayElements(kind, offset, size, align, count), lo, hi) && 0 < count
    ensures offset + size * count <= hi
  {
    var s, n := ArrayElements(kind, offset, size, align, count), count - 1;
    assert ElementOk(s[n], lo, hi);
    assert n * size + size == size * count;
  }
}
