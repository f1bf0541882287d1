# Ownership-in-Rust: first word, string length and slicing

A Dafny model of the computing parts of a short Rust program about ownership,
borrowing and slices. The program has three pieces of logic:

- `first_word(&s)` scans the bytes of a string and returns the slice that
  ends just before the first space (`b' '`, byte 0x20), or the whole string
  when there is no space;
- `calc_len(s)` and `calculate_length(&s)` return the byte length of a string
  cast to `u32`. The first also hands the string back;
- `&arr[2..7]` takes a half-open slice of a fixed ten-element `i32` array.

A string is modelled as its UTF-8 byte sequence (`seq<byte>`). This is how
`as_bytes()` and `len()` see it. The space is an ASCII byte, and no UTF-8
continuation byte has that value, so cutting at it always lands on a
character boundary. No UTF-8 reasoning is needed.

Modules:

- `Bytes` (bytes.dfy) defines the `u8` byte type and the space byte. It also
  defines `Ascii`, which writes the program's ASCII literals as byte sequences.
- `Slices` (slices.dfy) defines range indexing `&a[lo..hi]`. An out-of-range
  index is modelled as a `Panic` value. The module also holds the program's
  array and its `[2..7]` slice.
- `Length` (length.dfy) defines the `u32` type, the truncating `as u32` cast
  and the two length helpers.
- `FirstWord` (first_word.dfy) holds an independent specification
  (`IsFirstWord`), a functional version, and a loop version that mirrors the
  source's `for (i, &element) in bytes.iter().enumerate()` with its early
  return. It also holds the lemmas relating them.

## Model

| member | source | states |
|---|---|---|
| Slices.Range | src/main.rs:84 | `&a[lo..hi]` succeeds exactly when `lo <= hi <= len`. Its result then has `hi - lo` elements, and element `k` is `a[lo + k]`. Otherwise it panics |
| Slices.Full | src/main.rs:122 | `&s[..]` is a view of the whole of `s` |
| Slices.RangeSplit | src/main.rs:84 | the slices `[lo..mid]` and `[mid..hi]` are both in range, and joined they give `[lo..hi]` |
| Slices.ArrSlice | src/main.rs:83-84 | `&arr[2..7]` on `[2,4,3,5,3,1,4,5,6,3]` is in range, has 5 elements, has `arr[2+k]` at position `k`, and equals `[3,5,3,1,4]` |
| Length.AsU32 | src/main.rs:102 | `n as u32` is congruent to `n` modulo 2^32, and it equals `n` when `n < 2^32` |
| Length.AsU32Unique | src/main.rs:102 | the cast result is the only `u32` congruent to `n` modulo 2^32 |
| Length.CalcLen | src/main.rs:101-103 | the second component is the input string itself. The first is the byte length modulo 2^32, and it is exact below 2^32 |
| Length.CalculateLength | src/main.rs:107-109 | the result is the byte length modulo 2^32, exact below 2^32 |
| Length.LengthsAgree | src/main.rs:101-109 | `calc_len` and `calculate_length` report the same length, and `calc_len` returns its input unchanged |
| Length.LengthWraps | src/main.rs:107-109 | two strings whose lengths differ by 2^32 report the same length |
| FirstWord.SpaceIndex | src/main.rs:116-120 | the scan from `from` returns an index in `from..len`. No byte before it is a space, and the byte at it is a space unless it is the end |
| FirstWord.FirstWord | src/main.rs:113-123 | the result is a prefix of `s` with no space, and it ends at the end of `s` or just before a space of `s` |
| FirstWord.FirstWordLoop | src/main.rs:113-123 | the early-return loop returns a first word of `s` by the specification, and it equals the functional `FirstWord(s)` |
| FirstWord.FirstWordUnique | src/main.rs:116-122 | any two prefixes meeting the specification are equal, so the result is fully determined |
| FirstWord.WholeIffNoSpace | src/main.rs:122 | the whole string is returned exactly when it contains no space |
| FirstWord.EmptyIffLeadingSpace | src/main.rs:116-118 | the result is empty exactly when `s` is empty or starts with a space |
| FirstWord.Idempotent | src/main.rs:116-122 | applying `first_word` to its own result gives that result back |
| FirstWord.WordThenSpace | src/main.rs:116-118 | for a space-free word `w`, the first word of `w`, a space, and anything after is `w` |
| FirstWord.HelloWorld | src/main.rs:77-78 | `first_word("Hello World!")` is `"Hello"` |
| FirstWord.NoSpacesHere | src/main.rs:122 | `first_word("NoSpacesHere")` is the whole string |

## Left out

- Console output (`println!`), the order of the steps in `main` and the
  string literals it prints: these are I/O with no computed result beyond the
  calls modelled above.
- `take_ownership` and `give_ownership`: one only prints its argument and the
  other only returns a literal, so there is nothing to state beyond that.
- Moves, borrows and the exclusivity of mutable references
  (src/main.rs:11-14, src/main.rs:53-66): these are compile-time rules of the
  Rust type checker, not run-time behaviour, and Dafny's value types carry no
  ownership to state them with. Every value is immutable in the model, so
  "the input is unchanged after a borrow" holds by construction.
- UTF-8 validity and the character-boundary check of `&str` slicing: the only
  cut is at an ASCII space byte, which is always a boundary.
- Rust's `usize` bound on string length: lengths are unbounded naturals, and
  only the cast to `u32` is truncated explicitly.
