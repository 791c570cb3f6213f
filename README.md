# bmstu string and int2str, modelled in Dafny

This project models two pieces of the bmstu C/C++ course repository.

- `bmstu::basic_string<T>` (tasks/bmstu_string/task_sso_string/bmstu_sso_string.h) is a
  small-string-optimised string. It switches on `is_long_` between an inline `ShortString`
  (a buffer of `SSO_CAPACITY + 1` elements and a one-byte size) and a heap `LongString`
  (`ptr`, `size`, `capacity`). Every operation keeps a `T(0)` terminator at index `size()`.
- `int2str` (tasks/task_basic_c/task_int2str/int2str.c) writes a signed `int` in decimal into
  a 13-byte buffer. It fills the buffer from the right: terminator, digits least significant
  first, then an optional `-`. It returns a pointer to the first character.

Files:

- `sso_string.dfy`, module `SsoString`. The class `BasicString` has these fields:
  - the tag `isLong`;
  - the inline buffer `shortBuf` (an array of `SsoCapacity + 1` chars) and `shortSize`;
  - the heap buffer `longPtr` with `longSize` and `longCapacity`;
  - the ghost text `content` and the ghost footprint `Repr`.

  `Valid()` is the object invariant. The active buffer holds `content` followed by `'\0'`,
  and the size is within the capacity. Every constructor and method keeps it, except `Clean`,
  the model of `clean_`: it is a step inside an operation that leaves a long string's pointer
  null, and the assignments and `AppendRegrow` follow it at once with `Build`, `Duplicate`,
  `Take` or `SetLong`, which restore `Valid()`.
  The storage policy is stated as two functions on a `Layout` value (`Inline` or
  `Heap(capacity)`): `FitLayout` for the sized, list and C-string constructors, C-string assignment and `+`, and
  `AppendLayout` for `+=`. `std::memcpy` is the method `MemCopy`.
- `int2str.dfy`, module `Int2Str`. The method `Int2Str` fills a 13-slot array right to left
  and returns the start index. It is proved against `DecimalText`, whose digits are read back
  by `ParseDecimal` (a round trip).
- `sso_string_client.dfy`, module `SsoStringClient`. Callers that use only the contracts:
  - `(a+b)+c` and `a+(b+c)` have the same content;
  - a moved-from string can be reused;
  - copy self-assignment changes nothing;
  - the worked examples, including inline at `SSO_CAPACITY` and heap at `SSO_CAPACITY + 1`.

The element type is `char`; `T(0)` is `'\0'` and `T(' ')` is `' '`. `SSO_CAPACITY` is the
formula at bmstu_sso_string.h:24-25, `(sizeof(T*) + 2*sizeof(size_t)) / sizeof(T) - 1`. With
8-byte pointers and sizes and 1-byte chars it is 23, so a 20-element string is inline.

Two behaviours of the code worth stating:

- Move-assignment to self is guarded by `this != &other` (bmstu_sso_string.h:191) and changes
  nothing.
- `operator+=(T)` (bmstu_sso_string.h:335-338) goes through the C-string constructor of
  `{symbol, T(0)}`. Appending `T(0)` therefore leaves the string unchanged. `AppendChar`
  models this.

## Model

| member | source | states |
|---|---|---|
| SsoString.FitLayout | tasks/bmstu_string/task_sso_string/bmstu_sso_string.h:86-139 | storage chosen for length n: inline iff n <= SSO_CAPACITY, otherwise heap with capacity exactly n; either way n fits within the capacity |
| SsoString.AppendLayout | tasks/bmstu_string/task_sso_string/bmstu_sso_string.h:304-333 | storage after `+=`: the new size always fits; storage with room is kept as it was; otherwise an exact-fit heap buffer; heap never turns inline and its capacity never shrinks |
| SsoString.HeapIsSticky | tasks/bmstu_string/task_sso_string/bmstu_sso_string.h:309-331 | over any series of appends, a heap string stays on the heap with capacity no smaller than before |
| SsoString.CStringLength | tasks/bmstu_string/task_sso_string/bmstu_sso_string.h:360-366 | the length of a terminated array is the index of its first `'\0'`: that slot is `'\0'` and none before it is |
| SsoString.MemCopy | tasks/bmstu_string/task_sso_string/bmstu_sso_string.h:129 | `std::memcpy` of `count` elements between non-overlapping ranges: the destination range becomes the source range and every other slot of the destination keeps its old value |
| SsoString.FillSpaces | tasks/bmstu_string/task_sso_string/bmstu_sso_string.h:90-92 | the fill loops of the sized constructor (also lines 99-101): the first `n` slots become `' '` and the rest of the array is unchanged |
| SsoString.WriteList | tasks/bmstu_string/task_sso_string/bmstu_sso_string.h:112 | the range-for of the initializer-list constructor (also line 120): the list's elements in order from the front, and the rest of the array unchanged |
| SsoString.CopyJoined | tasks/bmstu_string/task_sso_string/bmstu_sso_string.h:254-256 | the two `memcpy` calls and the terminator write of `+` (also lines 262-264) and of the reallocating `+=` (lines 322-324): `dst` holds left's elements, then right's, then `'\0'` |
| SsoString.AppendInPlace | tasks/bmstu_string/task_sso_string/bmstu_sso_string.h:310-312 | the `memcpy` and terminator write of the in-place `+=` (also lines 315-317): the first `size` elements stay, the other's elements follow, then `'\0'`; correct also when appending a buffer to itself |
| SsoString.BasicString.StrLen | tasks/bmstu_string/task_sso_string/bmstu_sso_string.h:360-366 | `strlen_`'s counting loop stops at the first `'\0'` and returns its index |
| SsoString.BasicString.Size | tasks/bmstu_string/task_sso_string/bmstu_sso_string.h:65-70 | the size field of the active branch equals the length of the content |
| SsoString.BasicString.Capacity | tasks/bmstu_string/task_sso_string/bmstu_sso_string.h:72-77 | capacity is SSO_CAPACITY inline and the heap capacity otherwise, and is never below the size |
| SsoString.BasicString.IsUsingSso | tasks/bmstu_string/task_sso_string/bmstu_sso_string.h:182-184 | true exactly for the inline branch, whose content then fits SSO_CAPACITY |
| SsoString.BasicString.GetPtr | tasks/bmstu_string/task_sso_string/bmstu_sso_string.h:51-63 | the active buffer holds the content followed by the terminator at index size() |
| SsoString.BasicString.Clean | tasks/bmstu_string/task_sso_string/bmstu_sso_string.h:368-373 | a long string's heap pointer is dropped; the string then owns only itself and its inline buffer |
| SsoString.BasicString.SetShort | tasks/bmstu_string/task_sso_string/bmstu_sso_string.h:88-89 | `is_long_ = false` and the short size: the string becomes inline and holds the first `size` elements of its inline buffer, with `Valid()` restored |
| SsoString.BasicString.SetLong | tasks/bmstu_string/task_sso_string/bmstu_sso_string.h:95-98 | `is_long_ = true` and the pointer, size and capacity fields: the string holds the first `size` elements of that heap buffer, with that capacity and `Valid()` restored |
| SsoString.BasicString.ResetToEmpty | tasks/bmstu_string/task_sso_string/bmstu_sso_string.h:157-166 | a moved-from string is left valid, empty and inline, with `'\0'` in the first inline slot |
| SsoString.BasicString.constructor | tasks/bmstu_string/task_sso_string/bmstu_sso_string.h:80-84 | the default string is valid, empty and inline |
| SsoString.BasicString.Sized | tasks/bmstu_string/task_sso_string/bmstu_sso_string.h:86-104 | n spaces, stored as FitLayout(n) says, terminated |
| SsoString.BasicString.FromList | tasks/bmstu_string/task_sso_string/bmstu_sso_string.h:106-123 | the listed elements in order, stored as FitLayout says, terminated |
| SsoString.BasicString.FromCStr | tasks/bmstu_string/task_sso_string/bmstu_sso_string.h:125-139 | the text before the first `'\0'`, stored as FitLayout says; the buffer read back through c_str() equals the source including its terminator |
| SsoString.BasicString.Build | tasks/bmstu_string/task_sso_string/bmstu_sso_string.h:126-138 | the shared C-string body: content, storage and terminator as for the C-string constructor |
| SsoString.BasicString.Copy | tasks/bmstu_string/task_sso_string/bmstu_sso_string.h:141-151 | equal content, the same storage and capacity, in buffers that are all fresh |
| SsoString.BasicString.Duplicate | tasks/bmstu_string/task_sso_string/bmstu_sso_string.h:142-150 | the shared copy body: equal content and storage; a heap buffer is a fresh one |
| SsoString.BasicString.Move | tasks/bmstu_string/task_sso_string/bmstu_sso_string.h:153-168 | takes the source's content and storage, its very heap buffer when long; leaves the source valid, empty and inline with `'\0'` first; the two footprints end disjoint |
| SsoString.BasicString.Take | tasks/bmstu_string/task_sso_string/bmstu_sso_string.h:154-167 | the shared move body: content, storage and heap buffer transferred, source reset to empty inline |
| SsoString.BasicString.MoveAssign | tasks/bmstu_string/task_sso_string/bmstu_sso_string.h:190-209 | to itself: nothing changes; otherwise as the move constructor, after dropping this string's own heap buffer |
| SsoString.BasicString.AssignCStr | tasks/bmstu_string/task_sso_string/bmstu_sso_string.h:211-227 | the heap buffer is dropped and the content becomes the C string's text, in FitLayout storage; a heap result is always a fresh exact-fit buffer, even when the old one had room |
| SsoString.BasicString.CopyAssign | tasks/bmstu_string/task_sso_string/bmstu_sso_string.h:229-243 | to itself: nothing changes; otherwise equal content, storage and capacity, with a fresh heap buffer when long |
| SsoString.BasicString.Concat | tasks/bmstu_string/task_sso_string/bmstu_sso_string.h:245-267 | a fresh string holding left ++ right, stored as FitLayout(left.size()+right.size()); both operands unchanged |
| SsoString.BasicString.Equals | tasks/bmstu_string/task_sso_string/bmstu_sso_string.h:269-281 | true iff both strings hold the same elements (same size, equal at every index), whatever their storage |
| SsoString.BasicString.NotEquals | tasks/bmstu_string/task_sso_string/bmstu_sso_string.h:283-285 | true iff the contents differ |
| SsoString.BasicString.Append | tasks/bmstu_string/task_sso_string/bmstu_sso_string.h:304-333 | content becomes old ++ other (other may be the string itself); storage as AppendLayout says; a long string with room keeps its very buffer |
| SsoString.BasicString.AppendInLong | tasks/bmstu_string/task_sso_string/bmstu_sso_string.h:309-313 | a long string with room: content becomes old ++ other in the same heap buffer, capacity unchanged |
| SsoString.BasicString.AppendInShort | tasks/bmstu_string/task_sso_string/bmstu_sso_string.h:314-318 | an inline string that still fits: content becomes old ++ other and the string stays inline |
| SsoString.BasicString.AppendRegrow | tasks/bmstu_string/task_sso_string/bmstu_sso_string.h:319-331 | otherwise: content becomes old ++ other in a fresh heap buffer whose capacity is exactly the new size |
| SsoString.BasicString.AppendChar | tasks/bmstu_string/task_sso_string/bmstu_sso_string.h:335-338 | appends the symbol, or nothing when it is `'\0'`; storage as AppendLayout says; a long string with room keeps its very buffer |
| SsoString.BasicString.Get | tasks/bmstu_string/task_sso_string/bmstu_sso_string.h:340-348 | the element at index i < size(), and the terminator at i == size() |
| SsoString.BasicString.At | tasks/bmstu_string/task_sso_string/bmstu_sso_string.h:350-355 | out_of_range exactly when index >= size(); otherwise the element at index |
| SsoStringClient.ConcatAssociative | tasks/bmstu_string/task_sso_string/bmstu_sso_string.h:245-267 | (a+b)+c and a+(b+c) hold the same elements, a ++ b ++ c |
| SsoStringClient.MovedFromIsReusable | tasks/bmstu_string/task_sso_string/bmstu_sso_string.h:153-168 | after a move, appending t to the source leaves exactly t's content in it |
| SsoStringClient.SelfCopyAssign | tasks/bmstu_string/task_sso_string/bmstu_sso_string.h:229-231 | copy-assigning a string to itself leaves every owned object unchanged |
| Int2Str.DigitChar | tasks/task_basic_c/task_int2str/int2str.c:21 | `absolute % 10 + '0'` is a decimal digit character, and '0' only for 0 |
| Int2Str.DigitsRoundTrip | tasks/task_basic_c/task_int2str/int2str.c:20-23 | reading the produced digits back as a decimal number gives the magnitude |
| Int2Str.DigitsAreDecimal | tasks/task_basic_c/task_int2str/int2str.c:21 | every produced character is in '0'..'9' |
| Int2Str.DigitsNoLeadingZero | tasks/task_basic_c/task_int2str/int2str.c:20-23 | a positive magnitude gives at least one digit and the first one is not '0'; zero gives none from the loop |
| Int2Str.DigitsLength | tasks/task_basic_c/task_int2str/int2str.c:6 | a number below 10^k has at most k digits, so a 32-bit magnitude has at most 10 |
| Int2Str.DecimalTextRoundTrip | tasks/task_basic_c/task_int2str/int2str.c:12-30 | parsing the text back, sign included, gives the input number |
| Int2Str.DecimalTextShape | tasks/task_basic_c/task_int2str/int2str.c:17-27 | a '-' exactly for negative input; then 1 to 10 decimal digits, starting with '0' only for input 0 |
| Int2Str.WriteDigits | tasks/task_basic_c/task_int2str/int2str.c:20-23 | for a magnitude from 1 up to 2^31, the loop writes its digits right to left and ends with them filling the slots just before the terminator, starting at index 2 or later |
| Int2Str.Int2Str | tasks/task_basic_c/task_int2str/int2str.c:5-31 | on malloc failure: null and nothing written; otherwise a fresh 13-slot buffer, '\0' at index 12, start index in 1..11, and the slots from start up to 11 hold DecimalText(number) |

## Left out

- The C++ `union` is not modelled. The inline and heap fields are separate, so the model does
  not show the bytes they share. The inline buffer is an array the object owns from
  construction on. `sizeof` arithmetic becomes the constant `SsoCapacity`.
- `new`/`delete[]` and the destructor are not modelled. Dropping the heap buffer (`clean_`)
  sets the pointer to null and removes the buffer from the footprint. Nothing frees memory;
  Dafny's heap is garbage-collected.
- `operator<<` and `operator>>` (bmstu_sso_string.h:287-302) are left out: they are stream
  I/O through `rdbuf`/`ostringstream`. Reading would end in `AssignCStr`.
- Allocation failure in the string (`new` throwing) is left out. Every allocation succeeds.
- Sized: sizes are unbounded natural numbers, so the wrap of `size_t` is not modelled. In the
  code, `basic_string(SIZE_MAX)` (also reached by `basic_string(-1)`) computes `size + 1` as 0
  at bmstu_sso_string.h:98 and then writes past the buffer it allocated. The model returns
  `SIZE_MAX` spaces instead. The other size arithmetic (`len + 1`, `capacity + 1`, the sum of
  two sizes in `+` and `+=`) is likewise unbounded.
- Only `char` is modelled, not `wchar_t`, `char16_t` or `char32_t`. The one-byte width of the
  inline size field never matters, because the inline size is at most 23.
- The C-string constructor and assignment read a C string from index 0 of a Dafny array that
  holds a `'\0'`. An unterminated source would make `strlen_` read out of bounds, so it is
  excluded by the precondition. Interior pointers are not modelled.
- AssignCStr: requires that the C string is not one of the string's own buffers. For the heap
  buffer, the code (bmstu_sso_string.h:211-213) frees it before it scans the source, so such a
  call would read freed memory. For the inline buffer, nothing is freed, but the `memcpy` at
  bmstu_sso_string.h:216 would copy the buffer onto itself, which `memcpy` does not allow.
- MoveAssign, CopyAssign, Append: when the argument is a different string, they require its
  footprint to be disjoint from this string's. The source assumes this ownership but never
  checks it. `Append` also accepts the string itself.
- Get: requires `index <= size()`. Reading past the terminator through `operator[]` is
  undefined behaviour. Writing through the references returned by `operator[]`, `at` and
  `data()` is not modelled; these members return values.
- Int2Str: the magnitude is an unbounded natural number. For `INT_MIN`, the C `-number` at
  int2str.c:13 overflows, which is undefined behaviour. For that input the model states the
  intended text, `-2147483648`.
- Int2Str: `malloc` is a boolean parameter saying whether it succeeds. The model does not
  capture that the returned interior pointer cannot be passed to `free`.
