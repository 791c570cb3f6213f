/** A model of bmstu::basic_string<T>, the small-string-optimised string of
    tasks/bmstu_string/task_sso_string/bmstu_sso_string.h, instantiated with
    T = char.  The C++ union of an inline buffer and a heap buffer becomes a
    class with a representation tag and one field per branch; the text the
    string holds is the ghost field `content`. */
module SsoString {

  // Byte widths of the platform the inline capacity is derived for:
  // sizeof(T*), sizeof(size_t) and sizeof(T) with T = char.
  const PointerBytes: nat := 8
  const SizeBytes: nat := 8
  const ElementBytes: nat := 1

  /** SSO_CAPACITY: the inline buffer holds as many elements as fit in a
      pointer and two sizes, less one slot for the terminator (23 here). */
  const SsoCapacity: nat := (PointerBytes + SizeBytes + SizeBytes) / ElementBytes - 1

  /** T(0), the terminator, and T(' '), the fill of the sized constructor. */
  const Nul: char := '\0'
  const Space: char := ' '

  /** Which storage a string uses, with the capacity of a heap buffer. */
  datatype Layout = Inline | Heap(capacity: nat)
  {
    function Capacity(): nat
    {
      if Inline? then SsoCapacity else capacity
    }
  }

  datatype Error = OutOfRange
  datatype Result<T> = Ok(value: T) | Err(error: Error)

  /** The storage the sized, list and C-string constructors, the C-string
      assignment and `+` choose for a string of `len` elements: inline when
      it fits, otherwise a heap buffer of exactly `len` elements. */
  function FitLayout(len: nat): (r: Layout)
    ensures len <= r.Capacity()
    ensures r.Inline? <==> len <= SsoCapacity
    ensures r.Heap? ==> r.capacity == len
  {
    if len <= SsoCapacity then Inline else Heap(len)
  }

  /** The storage `+=` leaves behind when the string grows to `newSize`
      elements from storage `cur`. */
  function AppendLayout(cur: Layout, newSize: nat): (r: Layout)
    ensures newSize <= r.Capacity()
    ensures cur.Heap? ==> r.Heap? && cur.capacity <= r.capacity
    ensures newSize <= cur.Capacity() ==> r == cur
    ensures cur.Capacity() < newSize ==> r == Heap(newSize)
  {
    if cur.Heap? && newSize <= cur.capacity then cur
    else if cur.Inline? && newSize <= SsoCapacity then Inline
    else Heap(newSize)
  }

  /** The storage after a series of appends reaching the sizes in `sizes`. */
  function AppendAll(cur: Layout, sizes: seq<nat>): Layout
    decreases |sizes|
  {
    if sizes == [] then cur else AppendAll(AppendLayout(cur, sizes[0]), sizes[1..])
  }

  /** Promotion is irreversible: once on the heap, no series of appends
      brings a string back inline, and its capacity never shrinks. */
  lemma {:induction false} HeapIsSticky(cur: Layout, sizes: seq<nat>)
    requires cur.Heap?
    ensures AppendAll(cur, sizes).Heap?
    ensures cur.capacity <= AppendAll(cur, sizes).capacity
    decreases |sizes|
  {
    if sizes != [] {
      HeapIsSticky(AppendLayout(cur, sizes[0]), sizes[1..]);
    }
  }

  /** A C string is an array holding a terminator somewhere. */
  predicate IsCString(s: seq<char>)
  {
    Nul in s
  }

  /** The index of the first terminator. */
  function CStringLength(s: seq<char>): (n: nat)
    requires IsCString(s)
    ensures n < |s| && s[n] == Nul
    ensures forall j :: 0 <= j < n ==> s[j] != Nul
  {
    if s[0] == Nul then 0 else CStringLength(s[1..]) + 1
  }

  /** The text a C string denotes: everything before its first terminator. */
  function CString(s: seq<char>): (t: seq<char>)
    requires IsCString(s)
  {
    s[..CStringLength(s)]
  }

  /** std::memcpy on arrays of char: copies `count` elements into place and
      leaves the rest of `dst` as it was; the two ranges may not overlap. */
  method MemCopy(dst: array<char>, dstStart: nat, src: array<char>, srcStart: nat, count: nat)
    requires dstStart + count <= dst.Length && srcStart + count <= src.Length
    requires dst == src ==> dstStart + count <= srcStart || srcStart + count <= dstStart
    modifies dst
    ensures dst[..] == old(dst[..dstStart]) + old(src[srcStart..srcStart + count]) + old(dst[dstStart + count..])
  {
    ghost var before, copied := dst[..], src[srcStart..srcStart + count];
    var i := 0;
    while i < count
      invariant 0 <= i <= count
      invariant forall k :: dstStart <= k < dstStart + i ==> dst[k] == copied[k - dstStart]
      invariant forall k :: 0 <= k < dst.Length && !(dstStart <= k < dstStart + i) ==> dst[k] == before[k]
    {
      dst[dstStart + i] := src[srcStart + i];
      i := i + 1;
    }
    ghost var expected := before[..dstStart] + copied + before[dstStart + count..];
    assert forall k | 0 <= k < dst.Length :: dst[k] == expected[k];
  }

  /** The fill loops of the sized constructor: `n` spaces from the front. */
  method FillSpaces(a: array<char>, n: nat)
    requires n <= a.Length
    modifies a
    ensures a[..n] == seq(n, _ => Space)
    ensures forall k :: n <= k < a.Length ==> a[k] == old(a[k])
  {
    var i := 0;
    while i < n
      invariant 0 <= i <= n
      invariant forall k :: 0 <= k < i ==> a[k] == Space
      invariant forall k :: i <= k < a.Length ==> a[k] == old(a[k])
    {
      a[i] := Space;
      i := i + 1;
    }
  }

  /** The range-for of the initializer-list constructor: the list's elements
      in order from the front. */
  method WriteList(a: array<char>, il: seq<char>)
    requires |il| <= a.Length
    modifies a
    ensures a[..|il|] == il
    ensures forall k :: |il| <= k < a.Length ==> a[k] == old(a[k])
  {
    var i := 0;
    while i < |il|
      invariant 0 <= i <= |il|
      invariant a[..i] == il[..i]
      invariant forall k :: i <= k < a.Length ==> a[k] == old(a[k])
    {
      a[i] := il[i];
      i := i + 1;
    }
  }

  /** The two memcpy calls and the terminator write of `+` and of the
      reallocating `+=`: `left` then `right` from the front of `dst`. */
  method CopyJoined(dst: array<char>, left: array<char>, leftSize: nat, right: array<char>, rightSize: nat)
    requires leftSize + rightSize < dst.Length
    requires leftSize <= left.Length && rightSize <= right.Length
    requires dst != left && dst != right
    modifies dst
    ensures dst[..leftSize + rightSize] == old(left[..leftSize]) + old(right[..rightSize])
    ensures dst[leftSize + rightSize] == Nul
  {
    ghost var l, r := left[..leftSize], right[..rightSize];
    MemCopy(dst, 0, left, 0, leftSize);
    assert dst[..leftSize] == l;
    MemCopy(dst, leftSize, right, 0, rightSize);
    assert dst[..leftSize + rightSize] == l + r;
    dst[leftSize + rightSize] := Nul;
    assert dst[..leftSize + rightSize] == l + r;
  }

  /** The memcpy and the terminator write of the in-place `+=`: `count`
      elements of `src` after the first `size` elements of `dst`.  `src` may
      be `dst` itself (a string appended to itself): its first `count`
      elements are then read from the part left in place. */
  method AppendInPlace(dst: array<char>, size: nat, src: array<char>, count: nat)
    requires size + count < dst.Length && count <= src.Length
    requires dst == src ==> count <= size
    modifies dst
    ensures dst[..size + count] == old(dst[..size]) + old(src[..count])
    ensures dst[size + count] == Nul
  {
    ghost var kept, added := dst[..size], src[..count];
    MemCopy(dst, size, src, 0, count);
    assert dst[..size + count] == kept + added;
    dst[size + count] := Nul;
    assert dst[..size + count] == kept + added;
  }

  class BasicString {
    // is_long_ and the two branches of the union data_.  The inline buffer
    // is part of the object itself, so it never changes identity.
    var isLong: bool
    const shortBuf: array<char>
    var shortSize: nat
    var longPtr: array?<char>
    var longSize: nat
    var longCapacity: nat

    /** The elements the string holds, without its terminator. */
    ghost var content: seq<char>
    /** The objects this string owns: itself, its inline buffer and, when
        long, its heap buffer. */
    ghost var Repr: set<object>

    /** The object invariant: the active branch holds `content` followed by
        a terminator, within its capacity. */
    ghost predicate Valid()
      reads this, Repr
      ensures Valid() ==> this in Repr
    {
      && this in Repr
      && shortBuf in Repr
      && shortBuf.Length == SsoCapacity + 1
      && if isLong then
           && longPtr != null && longPtr != shortBuf
           && Repr == {this, shortBuf, longPtr}
           && longSize <= longCapacity
           && longPtr.Length == longCapacity + 1
           && longPtr[longSize] == Nul
           && content == longPtr[..longSize]
         else
           && Repr == {this, shortBuf}
           && shortSize <= SsoCapacity
           && shortBuf[shortSize] == Nul
           && content == shortBuf[..shortSize]
    }

    ghost function LayoutOf(): Layout
      reads this
    {
      if isLong then Heap(longCapacity) else Inline
    }

    /** get_size / size(). */
    function Size(): (n: nat)
      reads this, Repr
      requires Valid()
      ensures n == |content|
    {
      if isLong then longSize else shortSize
    }

    /** get_capacity / capacity(): never below the size. */
    function Capacity(): (c: nat)
      reads this, Repr
      requires Valid()
      ensures |content| <= c
      ensures c == LayoutOf().Capacity()
    {
      if isLong then longCapacity else SsoCapacity
    }

    /** is_using_sso(): an inline string is within the inline capacity. */
    function IsUsingSso(): (b: bool)
      reads this, Repr
      requires Valid()
      ensures b <==> LayoutOf() == Inline
      ensures b ==> |content| <= SsoCapacity
    {
      !isLong
    }

    /** get_ptr / c_str() / data(): the active buffer, holding the content
        followed by the terminator. */
    function GetPtr(): (p: array<char>)
      reads this, Repr
      requires Valid()
      ensures p in Repr && |content| < p.Length
      ensures p[..|content|] == content && p[|content|] == Nul
    {
      if isLong then longPtr else shortBuf
    }

    /** clean_(): drops the heap buffer, if any. */
    method Clean()
      requires Valid()
      modifies this`longPtr, this`Repr
      ensures old(isLong) ==> longPtr == null
      ensures Repr == {this, shortBuf}
    {
      if isLong {
        longPtr := null;
      }
      Repr := {this, shortBuf};
    }

    /** Selects the inline branch, holding the first `size` elements of the
        inline buffer, which the caller has terminated. */
    method SetShort(size: nat)
      requires shortBuf.Length == SsoCapacity + 1
      requires size <= SsoCapacity && shortBuf[size] == Nul
      modifies this`isLong, this`shortSize, this`content, this`Repr
      ensures Valid() && LayoutOf() == Inline && Repr == {this, shortBuf}
      ensures content == shortBuf[..size]
    {
      isLong := false;
      shortSize := size;
      content := shortBuf[..size];
      Repr := {this, shortBuf};
    }

    /** Selects the heap branch, holding the first `size` elements of `ptr`,
        which the caller has terminated. */
    method SetLong(ptr: array<char>, size: nat, capacity: nat)
      requires shortBuf.Length == SsoCapacity + 1 && ptr != shortBuf
      requires size <= capacity && ptr.Length == capacity + 1 && ptr[size] == Nul
      modifies this`isLong, this`longPtr, this`longSize, this`longCapacity, this`content, this`Repr
      ensures Valid() && LayoutOf() == Heap(capacity) && Repr == {this, shortBuf, ptr}
      ensures content == ptr[..size]
    {
      isLong := true;
      longPtr := ptr;
      longSize := size;
      longCapacity := capacity;
      content := ptr[..size];
      Repr := {this, shortBuf, ptr};
    }

    /** What a move leaves in its source: empty, inline, with the heap
        pointer dropped and a terminator in the first inline slot. */
    method ResetToEmpty()
      requires shortBuf.Length == SsoCapacity + 1
      modifies this, shortBuf
      ensures Valid() && content == [] && LayoutOf() == Inline
      ensures Repr == {this, shortBuf} && shortBuf[0] == Nul
    {
      longPtr := null;
      longSize := 0;
      shortBuf[0] := Nul;
      SetShort(0);
    }

    /** The default constructor: empty and inline. */
    constructor ()
      ensures Valid() && fresh(Repr)
      ensures content == [] && LayoutOf() == Inline
    {
      var buf := new char[SsoCapacity + 1];
      buf[0] := Nul;
      isLong := false;
      shortBuf := buf;
      shortSize := 0;
      longPtr := null;
      content := [];
      Repr := {this, buf};
    }

    /** basic_string(size_t size): `n` spaces. */
    constructor Sized(n: nat)
      ensures Valid() && fresh(Repr)
      ensures content == seq(n, _ => Space)
      ensures LayoutOf() == FitLayout(n)
    {
      shortBuf := new char[SsoCapacity + 1];
      new;
      if n <= SsoCapacity {
        FillSpaces(shortBuf, n);
        shortBuf[n] := Nul;
        SetShort(n);
      } else {
        var ptr := new char[n + 1];
        FillSpaces(ptr, n);
        ptr[n] := Nul;
        SetLong(ptr, n, n);
      }
    }

    /** basic_string(std::initializer_list<T>): the listed elements. */
    constructor FromList(il: seq<char>)
      ensures Valid() && fresh(Repr)
      ensures content == il
      ensures LayoutOf() == FitLayout(|il|)
    {
      shortBuf := new char[SsoCapacity + 1];
      new;
      var size := |il|;
      if size <= SsoCapacity {
        WriteList(shortBuf, il);
        shortBuf[size] := Nul;
        SetShort(size);
      } else {
        var ptr := new char[size + 1];
        WriteList(ptr, il);
        ptr[size] := Nul;
        SetLong(ptr, size, size);
      }
    }

    /** basic_string(const T*): the text before the first terminator, and
        the terminator after it, as the C string has them. */
    constructor FromCStr(cstr: array<char>)
      requires IsCString(cstr[..])
      ensures Valid() && fresh(Repr)
      ensures content == CString(cstr[..])
      ensures GetPtr()[..Size() + 1] == cstr[..Size() + 1]
      ensures LayoutOf() == FitLayout(|content|)
    {
      shortBuf := new char[SsoCapacity + 1];
      new;
      Build(cstr);
    }

    /** The copy constructor: equal content in the same storage, with a
        fresh heap buffer of the same capacity when the source is long. */
    constructor Copy(other: BasicString)
      requires other.Valid()
      ensures Valid() && fresh(Repr)
      ensures content == other.content && LayoutOf() == other.LayoutOf()
    {
      shortBuf := new char[SsoCapacity + 1];
      new;
      Duplicate(other);
    }

    /** The move constructor: takes the source's content and storage (its
        heap buffer itself when long) and leaves the source empty and
        inline. */
    constructor Move(dying: BasicString)
      requires dying.Valid()
      modifies dying, dying.shortBuf
      ensures Valid() && fresh(Repr - old(dying.Repr))
      ensures content == old(dying.content) && LayoutOf() == old(dying.LayoutOf())
      ensures isLong ==> longPtr == old(dying.longPtr)
      ensures dying.Valid() && dying.content == [] && dying.LayoutOf() == Inline
      ensures dying.shortBuf[0] == Nul
      ensures Repr !! dying.Repr
    {
      shortBuf := new char[SsoCapacity + 1];
      new;
      Repr := {this, shortBuf};
      Take(dying);
    }

    /** The shared body of the C-string constructor and assignment, once
        any heap buffer is dropped. */
    method Build(cstr: array<char>)
      requires shortBuf.Length == SsoCapacity + 1
      requires IsCString(cstr[..]) && cstr != shortBuf
      modifies this`isLong, this`shortSize, this`longPtr, this`longSize, this`longCapacity, this`content, this`Repr, shortBuf
      ensures Valid() && fresh(Repr - {this, shortBuf})
      ensures content == CString(cstr[..])
      ensures GetPtr()[..Size() + 1] == cstr[..Size() + 1]
      ensures LayoutOf() == FitLayout(|content|)
    {
      var len := StrLen(cstr);
      if len <= SsoCapacity {
        MemCopy(shortBuf, 0, cstr, 0, len);
        shortBuf[len] := Nul;
        SetShort(len);
        assert shortBuf[..len + 1] == shortBuf[..len] + [Nul];
        assert cstr[..len + 1] == cstr[..len] + [Nul];
      } else {
        var ptr := new char[len + 1];
        MemCopy(ptr, 0, cstr, 0, len + 1);
        SetLong(ptr, len, len);
        assert ptr[..len + 1] == ptr[..];
      }
    }

    /** The shared body of the copy constructor and copy assignment, once
        any heap buffer is dropped. */
    method Duplicate(other: BasicString)
      requires shortBuf.Length == SsoCapacity + 1
      requires other.Valid() && this !in other.Repr && shortBuf !in other.Repr
      modifies this`isLong, this`shortSize, this`longPtr, this`longSize, this`longCapacity, this`content, this`Repr, shortBuf
      ensures Valid() && fresh(Repr - {this, shortBuf})
      ensures content == other.content && LayoutOf() == other.LayoutOf()
      ensures isLong ==> fresh(longPtr)
    {
      if other.isLong {
        var ptr := new char[other.longCapacity + 1];
        MemCopy(ptr, 0, other.longPtr, 0, other.longSize + 1);
        assert ptr[other.longSize] == Nul;
        SetLong(ptr, other.longSize, other.longCapacity);
        assert content == ptr[..other.longSize + 1][..other.longSize];
      } else {
        MemCopy(shortBuf, 0, other.shortBuf, 0, SsoCapacity + 1);
        assert shortBuf[..] == other.shortBuf[..];
        SetShort(other.shortSize);
        assert content == shortBuf[..][..other.shortSize];
      }
    }

    /** The shared body of the move constructor and move assignment, once
        any heap buffer is dropped: the source's storage becomes this
        string's and the source is reset. */
    method Take(other: BasicString)
      requires shortBuf.Length == SsoCapacity + 1
      requires other.Valid() && this !in other.Repr && shortBuf !in other.Repr
      modifies this`isLong, this`shortSize, this`longPtr, this`longSize, this`longCapacity, this`content, this`Repr, shortBuf
      modifies other, other.shortBuf
      ensures Valid() && Repr <= {this, shortBuf} + old(other.Repr)
      ensures content == old(other.content) && LayoutOf() == old(other.LayoutOf())
      ensures isLong ==> longPtr == old(other.longPtr)
      ensures other.Valid() && other.content == [] && other.LayoutOf() == Inline
      ensures other.shortBuf[0] == Nul
      ensures Repr !! other.Repr
    {
      if other.isLong {
        SetLong(other.longPtr, other.longSize, other.longCapacity);
      } else {
        MemCopy(shortBuf, 0, other.shortBuf, 0, SsoCapacity + 1);
        assert shortBuf[..] == other.shortBuf[..];
        SetShort(other.shortSize);
        assert content == shortBuf[..][..other.shortSize];
      }
      other.ResetToEmpty();
    }

    /** operator=(basic_string&&): on a distinct source, as the move
        constructor after dropping this string's heap buffer; on itself,
        nothing. */
    method MoveAssign(other: BasicString)
      requires Valid() && other.Valid()
      requires other == this || Repr !! other.Repr
      modifies Repr, other.Repr
      ensures Valid() && other.Valid()
      ensures other == this ==> Repr == old(Repr) && unchanged(old(Repr))
      ensures other != this ==>
        && content == old(other.content) && LayoutOf() == old(other.LayoutOf())
        && (isLong ==> longPtr == old(other.longPtr))
        && other.content == [] && other.LayoutOf() == Inline && other.shortBuf[0] == Nul
        && Repr !! other.Repr
        && Repr <= old(Repr) + old(other.Repr)
    {
      if other != this {
        Clean();
        Take(other);
      }
    }

    /** operator=(const T*): drops the heap buffer, then builds as the
        C-string constructor does, so a heap result always gets a new
        buffer.  The source may not be one of this string's own buffers:
        the heap one is freed before it is read, and the inline one would
        be the source and the destination of the same memcpy. */
    method AssignCStr(cstr: array<char>)
      requires Valid() && IsCString(cstr[..])
      requires cstr !in Repr
      modifies Repr
      ensures Valid() && fresh(Repr - old(Repr))
      ensures content == CString(cstr[..])
      ensures LayoutOf() == FitLayout(|content|)
      ensures isLong ==> fresh(longPtr)
    {
      Clean();
      Build(cstr);
    }

    /** operator=(const basic_string&): on a distinct source, as the copy
        constructor after dropping this string's heap buffer; on itself,
        nothing. */
    method CopyAssign(other: BasicString)
      requires Valid() && other.Valid()
      requires other == this || Repr !! other.Repr
      modifies Repr
      ensures Valid() && fresh(Repr - old(Repr))
      ensures content == old(other.content) && LayoutOf() == old(other.LayoutOf())
      ensures other == this ==> Repr == old(Repr) && unchanged(old(Repr))
      ensures other != this && isLong ==> fresh(longPtr)
    {
      if other != this {
        Clean();
        Duplicate(other);
      }
    }

    /** operator+: a fresh string holding `left` then `right`, in the
        storage FitLayout picks for the total length. */
    static method Concat(left: BasicString, right: BasicString) returns (result: BasicString)
      requires left.Valid() && right.Valid()
      ensures result.Valid() && fresh(result.Repr)
      ensures result.content == left.content + right.content
      ensures result.LayoutOf() == FitLayout(|result.content|)
    {
      var leftSize, rightSize := left.Size(), right.Size();
      var leftPtr, rightPtr := left.GetPtr(), right.GetPtr();
      var newLen := leftSize + rightSize;
      result := new BasicString();
      if newLen <= SsoCapacity {
        CopyJoined(result.shortBuf, leftPtr, leftSize, rightPtr, rightSize);
        result.SetShort(newLen);
      } else {
        var ptr := new char[newLen + 1];
        CopyJoined(ptr, leftPtr, leftSize, rightPtr, rightSize);
        result.SetLong(ptr, newLen, newLen);
      }
    }

    /** operator==: equal sizes and equal elements position by position,
        whatever storage either side uses. */
    static method Equals(lhs: BasicString, rhs: BasicString) returns (eq: bool)
      requires lhs.Valid() && rhs.Valid()
      ensures eq <==> lhs.content == rhs.content
    {
      if lhs.Size() != rhs.Size() {
        return false;
      }
      var l, r := lhs.GetPtr(), rhs.GetPtr();
      var i := 0;
      while i < lhs.Size()
        invariant 0 <= i <= |lhs.content|
        invariant lhs.content[..i] == rhs.content[..i]
      {
        if l[i] != r[i] {
          assert lhs.content[i] != rhs.content[i];
          return false;
        }
        i := i + 1;
      }
      assert lhs.content == lhs.content[..i];
      return true;
    }

    /** operator!=: the negation of operator==. */
    static method NotEquals(lhs: BasicString, rhs: BasicString) returns (ne: bool)
      requires lhs.Valid() && rhs.Valid()
      ensures ne <==> lhs.content != rhs.content
    {
      var eq := Equals(lhs, rhs);
      ne := !eq;
    }

    /** operator+=(const basic_string&): the content grows by `other`'s; a
        long string with room keeps its buffer, an inline string that still
        fits stays inline, anything else moves to an exact-fit heap buffer.
        `other` may be this string itself. */
    method Append(other: BasicString)
      requires Valid() && other.Valid()
      requires other == this || Repr !! other.Repr
      modifies Repr
      ensures Valid() && fresh(Repr - old(Repr))
      ensures content == old(content) + old(other.content)
      ensures LayoutOf() == AppendLayout(old(LayoutOf()), |content|)
      ensures old(isLong) && |content| <= old(longCapacity) ==> longPtr == old(longPtr)
    {
      var newSize := Size() + other.Size();
      if isLong && newSize <= longCapacity {
        AppendInLong(other);
      } else if !isLong && newSize <= SsoCapacity {
        AppendInShort(other);
      } else {
        AppendRegrow(other);
      }
    }

    /** The first branch of `+=`: a long string with room appends in its own
        heap buffer. */
    method AppendInLong(other: BasicString)
      requires Valid() && other.Valid()
      requires other == this || Repr !! other.Repr
      requires isLong && |content| + |other.content| <= longCapacity
      modifies this, longPtr
      ensures Valid() && Repr == old(Repr)
      ensures content == old(content) + old(other.content)
      ensures isLong && longPtr == old(longPtr) && longCapacity == old(longCapacity)
    {
      var currentSize, otherSize := Size(), other.Size();
      AppendInPlace(longPtr, currentSize, other.GetPtr(), otherSize);
      SetLong(longPtr, currentSize + otherSize, longCapacity);
    }

    /** The second branch of `+=`: an inline string that still fits appends
        in its inline buffer. */
    method AppendInShort(other: BasicString)
      requires Valid() && other.Valid()
      requires other == this || Repr !! other.Repr
      requires !isLong && |content| + |other.content| <= SsoCapacity
      modifies this, shortBuf
      ensures Valid() && Repr == old(Repr)
      ensures content == old(content) + old(other.content)
      ensures !isLong
    {
      var currentSize, otherSize := Size(), other.Size();
      AppendInPlace(shortBuf, currentSize, other.GetPtr(), otherSize);
      SetShort(currentSize + otherSize);
    }

    /** The third branch of `+=`: both parts are copied into a new heap
        buffer of exactly the new size, which replaces any old one. */
    method AppendRegrow(other: BasicString)
      requires Valid() && other.Valid()
      requires other == this || Repr !! other.Repr
      modifies this
      ensures Valid() && fresh(Repr - old(Repr))
      ensures content == old(content) + old(other.content)
      ensures isLong && longCapacity == |content| && fresh(longPtr)
    {
      var currentSize, otherSize := Size(), other.Size();
      var newSize := currentSize + otherSize;
      var newCapacity := newSize;
      var newPtr := new char[newCapacity + 1];
      CopyJoined(newPtr, GetPtr(), currentSize, other.GetPtr(), otherSize);
      Clean();
      SetLong(newPtr, newSize, newCapacity);
    }

    /** operator+=(T): appends through a temporary built by the C-string
        constructor from {symbol, T(0)}, so appending T(0) adds nothing. */
    method AppendChar(symbol: char)
      requires Valid()
      modifies Repr
      ensures Valid() && fresh(Repr - old(Repr))
      ensures content == old(content) + (if symbol == Nul then [] else [symbol])
      ensures LayoutOf() == AppendLayout(old(LayoutOf()), |content|)
      ensures old(isLong) && |content| <= old(longCapacity) ==> longPtr == old(longPtr)
    {
      var temp := new char[2];
      temp[0], temp[1] := symbol, Nul;
      assert IsCString(temp[..]) by { assert temp[..][1] == Nul; }
      var tail := new BasicString.FromCStr(temp);
      assert CString(temp[..]) == if symbol == Nul then [] else [symbol] by {
        assert temp[..][0] == symbol;
      }
      Append(tail);
    }

    /** operator[]: the element at `index`, the terminator at `size()`;
        beyond that the C++ is undefined, so it is excluded. */
    method Get(index: nat) returns (c: char)
      requires Valid() && index <= Size()
      ensures c == (content + [Nul])[index]
    {
      var p := GetPtr();
      c := p[index];
      assert p[..|content| + 1] == content + [Nul];
    }

    /** at(): the element at `index`, or out_of_range when `index` is not
        below the size. */
    method At(index: nat) returns (r: Result<char>)
      requires Valid()
      ensures r.Err? <==> |content| <= index
      ensures r.Ok? ==> r.value == content[index]
    {
      if index >= Size() {
        return Err(OutOfRange);
      }
      var p := GetPtr();
      return Ok(p[index]);
    }

    /** strlen_: the index of the first terminator. */
    static method StrLen(str: array<char>) returns (len: nat)
      requires IsCString(str[..])
      ensures len < str.Length && str[len] == Nul
      ensures forall j :: 0 <= j < len ==> str[j] != Nul
      ensures len == CStringLength(str[..])
    {
      len := 0;
      while str[len] != Nul
        invariant len <= CStringLength(str[..])
        invariant forall j :: 0 <= j < len ==> str[j] != Nul
        decreases CStringLength(str[..]) - len
      {
        len := len + 1;
      }
    }
  }
}
