/** Callers of the string model: what its contracts let a user of
    bmstu::basic_string conclude without looking inside. */
module SsoStringClient {
  import opened SsoString

  /** A terminated C string holding `s`. */
  method MakeCString(s: seq<char>) returns (a: array<char>)
    requires Nul !in s
    ensures fresh(a) && a[..] == s + [Nul]
    ensures IsCString(a[..]) && CString(a[..]) == s
  {
    a := new char[|s| + 1](i requires 0 <= i <= |s| => if i < |s| then s[i] else Nul);
    assert a[..][|s|] == Nul;
    assert a[..][..|s|] == s;
  }

  /** (a + b) + c and a + (b + c) hold the same elements, whatever storage
      each ends up in. */
  method ConcatAssociative(a: BasicString, b: BasicString, c: BasicString)
    returns (left: BasicString, right: BasicString)
    requires a.Valid() && b.Valid() && c.Valid()
    ensures left.Valid() && right.Valid()
    ensures left.content == right.content == a.content + b.content + c.content
  {
    left := ConcatLeft(a, b, c);
    right := ConcatRight(a, b, c);
  }

  /** (a + b) + c. */
  method ConcatLeft(a: BasicString, b: BasicString, c: BasicString) returns (r: BasicString)
    requires a.Valid() && b.Valid() && c.Valid()
    ensures r.Valid() && r.content == a.content + b.content + c.content
  {
    var ab := BasicString.Concat(a, b);
    r := BasicString.Concat(ab, c);
  }

  /** a + (b + c). */
  method ConcatRight(a: BasicString, b: BasicString, c: BasicString) returns (r: BasicString)
    requires a.Valid() && b.Valid() && c.Valid()
    ensures r.Valid() && r.content == a.content + (b.content + c.content)
  {
    var bc := BasicString.Concat(b, c);
    r := BasicString.Concat(a, bc);
  }

  /** A moved-from string is empty and behaves as a freshly constructed
      one: appending to it yields exactly what was appended. */
  method MovedFromIsReusable(s: BasicString, t: BasicString) returns (taken: BasicString)
    requires s.Valid() && t.Valid() && s.Repr !! t.Repr
    modifies s, s.shortBuf
    ensures taken.Valid() && taken.content == old(s.content)
    ensures s.Valid() && s.content == t.content
  {
    taken := new BasicString.Move(s);
    assert s.Size() == 0 && s.IsUsingSso();
    s.Append(t);
  }

  /** Copy-assigning a string to itself changes nothing. */
  method SelfCopyAssign(s: BasicString)
    requires s.Valid()
    modifies s.Repr
    ensures s.Valid() && s.Repr == old(s.Repr) && unchanged(s.Repr) && s.content == old(s.content)
  {
    s.CopyAssign(s);
  }

  // Worked examples, with the inline capacity the formula gives (23 elements).

  method HelloIsInline()
  {
    assert SsoCapacity == 23;
    var hello := MakeCString("hello");
    var s := new BasicString.FromCStr(hello);
    assert s.Size() == 5 && s.IsUsingSso();
    assert s.GetPtr()[..6] == "hello\0";
  }

  method PromotionThreshold()
  {
    var fits := new BasicString.Sized(SsoCapacity);
    assert fits.IsUsingSso();
    var spills := new BasicString.Sized(SsoCapacity + 1);
    assert !spills.IsUsingSso() && spills.Capacity() == SsoCapacity + 1;
  }

  method AbcPlusDef()
  {
    var abc := new BasicString.FromList("abc");
    var def := new BasicString.FromList("def");
    var abcdef := BasicString.Concat(abc, def);
    assert abcdef.content == "abcdef" && abcdef.Size() == 6;
  }

  method AppendPromotes()
  {
    var short := new BasicString.FromList("short");
    var tail := new BasicString.FromList("str that pushes the total past it");
    short.Append(tail);
    assert !short.IsUsingSso() && short.Capacity() == short.Size() == 38;
    var past := short.At(short.Size());
    assert past == Err(OutOfRange);
  }

  method MoveEmptiesSource()
  {
    var x := new BasicString.FromList("x");
    var y := new BasicString.Move(x);
    assert y.content == "x" && x.Size() == 0;
  }
}
