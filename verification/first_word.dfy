/** `first_word`: the slice of a string up to, not including, its first
    space byte, or the whole string when it has no space. Since the space is
    an ASCII byte and no UTF-8 continuation byte equals it, a cut there is
    always on a character boundary, so the model works on bytes alone. */
module FirstWord {
  import opened Bytes
  import opened Slices

  /** The specification: `w` is the first word of `s` when it is a prefix of
      `s` holding no space, and it stops either at the end of `s` or right
      before a space of `s`. */
  predicate IsFirstWord(s: seq<byte>, w: seq<byte>) {
    && w <= s
    && Space !in w
    && (|w| == |s| || s[|w|] == Space)
  }

  /** The scan of `bytes.iter().enumerate()` from position `from`: the index
      of the first space at or after `from`, or `|s|` if there is none. */
  function SpaceIndex(s: seq<byte>, from: nat): (i: nat)
    requires from <= |s|
    ensures from <= i <= |s|
    ensures forall k :: from <= k < i ==> s[k] != Space
    ensures i < |s| ==> s[i] == Space
    decreases |s| - from
  {
    if from == |s| then from
    else if s[from] == Space then from
    else SpaceIndex(s, from + 1)
  }

  /** `first_word(&s)` as a function: `&s[0..i]` at the first space `i`,
      `&s[..]` when there is none. */
  function FirstWord(s: seq<byte>): (w: seq<byte>)
    ensures IsFirstWord(s, w)
  {
    s[..SpaceIndex(s, 0)]
  }

  /** `first_word(&s)` as the source writes it: one pass over the bytes that
      returns early at the first space. */
  method FirstWordLoop(s: seq<byte>) returns (w: seq<byte>)
    ensures IsFirstWord(s, w)
    ensures w == FirstWord(s)
  {
    var i := 0;
    while i < |s|
      invariant 0 <= i <= |s|
      invariant Space !in s[..i]
    {
      if s[i] == Space {
        w := Range(s, 0, i).elems;
        assert w == s[..i];
        FirstWordUnique(s, w, FirstWord(s));
        return;
      }
      assert s[..i + 1] == s[..i] + [s[i]];
      i := i + 1;
    }
    w := Full(s).elems;
    assert s[..i] == s;
    FirstWordUnique(s, w, FirstWord(s));
  }

  /** The specification admits exactly one first word. */
  lemma FirstWordUnique(s: seq<byte>, w1: seq<byte>, w2: seq<byte>)
    requires IsFirstWord(s, w1) && IsFirstWord(s, w2)
    ensures w1 == w2
  {
    assert w1 == s[..|w1|] && w2 == s[..|w2|];
  }

  /** The whole string comes back exactly when it holds no space. */
  lemma WholeIffNoSpace(s: seq<byte>)
    ensures FirstWord(s) == s <==> Space !in s
  {
    if Space !in s {
      assert IsFirstWord(s, s);
      FirstWordUnique(s, s, FirstWord(s));
    }
  }

  /** The result is empty exactly when the string is empty or opens with a
      space, where the scan returns at index 0. */
  lemma EmptyIffLeadingSpace(s: seq<byte>)
    ensures FirstWord(s) == [] <==> (|s| == 0 || s[0] == Space)
  {
    if |s| == 0 || s[0] == Space {
      assert IsFirstWord(s, []);
      FirstWordUnique(s, [], FirstWord(s));
    }
  }

  /** Taking the first word of a first word changes nothing, because it holds
      no space. */
  lemma Idempotent(s: seq<byte>)
    ensures FirstWord(FirstWord(s)) == FirstWord(s)
  {
    WholeIffNoSpace(FirstWord(s));
  }

  /** A word with no space, followed by a space and anything at all, is the
      first word of the whole. */
  lemma WordThenSpace(w: seq<byte>, rest: seq<byte>)
    requires Space !in w
    ensures FirstWord(w + [Space] + rest) == w
  {
    var s := w + [Space] + rest;
    assert s[|w|] == Space;
    assert w <= s by {
      assert s[..|w|] == w;
    }
    FirstWordUnique(s, w, FirstWord(s));
  }

  /** `first_word("Hello World!")` is `"Hello"`. */
  lemma HelloWorld()
    ensures IsAscii("Hello World!") && IsAscii("Hello")
    ensures FirstWord(Ascii("Hello World!")) == Ascii("Hello")
  {
    AsciiAppend("Hello", " ");
    AsciiAppend("Hello ", "World!");
    assert "Hello World!" == "Hello " + "World!";
    assert "Hello " == "Hello" + " ";
    var hello := Ascii("Hello");
    assert Ascii(" ") == [Space];
    assert Space !in hello by {
      assert forall i :: 0 <= i < |hello| ==> hello[i] != Space;
    }
    WordThenSpace(hello, Ascii("World!"));
  }

  /** `first_word("NoSpacesHere")` is the whole string. */
  lemma NoSpacesHere()
    ensures IsAscii("NoSpacesHere")
    ensures FirstWord(Ascii("NoSpacesHere")) == Ascii("NoSpacesHere")
  {
    var s := Ascii("NoSpacesHere");
    assert Space !in s by {
      assert forall i :: 0 <= i < |s| ==> s[i] != Space;
    }
    WholeIffNoSpace(s);
  }
}
