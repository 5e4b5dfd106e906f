/**
 * The in-place string helpers: an FString is a character array the helpers edit through a
 * reference. Its allocated capacity is kept as a second field so that the reserving helpers have
 * a visible effect that never touches the characters.
 */
module ActionStr {
  import opened Text

  /**
   * The engine's character classification and case mapping (FChar::IsWhitespace, FChar::ToUpper,
   * FChar::ToLower); they come from the platform's C library and are taken as given.
   */
  datatype CharClass = CharClass(isWhitespace: char -> bool, toUpper: char -> char, toLower: char -> char)

  /** A mutable string: its characters and the number of characters allocated for them. */
  class FString {
    var chars: seq<char>
    var capacity: nat

    ghost predicate Valid()
      reads this
    {
      |chars| <= capacity
    }

    constructor (s: string)
      ensures chars == s && capacity == |s| && Valid()
    {
      chars := s;
      capacity := |s|;
    }

    /** SetChar: the character at `index` becomes the first of `charIn`; out of range or an empty `charIn` changes nothing. */
    method SetChar(index: int, charIn: string)
      requires Valid()
      modifies this
      ensures Valid() && capacity == old(capacity)
      ensures 0 <= index < |old(chars)| && charIn != [] ==> chars == old(chars)[index := charIn[0]]
      ensures !(0 <= index < |old(chars)| && charIn != []) ==> chars == old(chars)
    {
      if |chars| <= index || |charIn| == 0 || index < 0 {
        return;
      }
      chars := chars[index := charIn[0]];
    }

    /** GetChar: the one-character string at `index`, or "" out of range. */
    method GetChar(index: int) returns (r: string)
      ensures 0 <= index < |chars| ==> r == [chars[index]]
      ensures !(0 <= index < |chars|) ==> r == ""
    {
      if |chars| <= index || index < 0 {
        return "";
      }
      r := "";
      r := r + [chars[index]];
    }

    /** PopChar: the last character is removed; an empty string is left alone. */
    method PopChar()
      requires Valid()
      modifies this
      ensures Valid() && capacity == old(capacity)
      ensures old(chars) != [] ==> chars == old(chars)[..|old(chars)| - 1]
      ensures old(chars) == [] ==> chars == []
    {
      if |chars| == 0 {
        return;
      }
      chars := chars[..|chars| - 1];
    }

    /** PushChar: the first character of `charIn` is appended; an empty `charIn` changes nothing. */
    method PushChar(charIn: string)
      requires Valid()
      modifies this
      ensures Valid() && capacity >= old(capacity)
      ensures charIn != [] ==> chars == old(chars) + [charIn[0]]
      ensures charIn == [] ==> chars == old(chars)
    {
      if |charIn| == 0 {
        return;
      }
      chars := chars + [charIn[0]];
      if capacity < |chars| {
        capacity := |chars|;
      }
    }

    /**
     * FillString: the string becomes `numChars` copies of the first character of `charIn`,
     * whatever it held before; with `numChars <= 0` or an empty `charIn` nothing changes.
     */
    method FillString(numChars: int, charIn: string)
      requires Valid()
      modifies this
      ensures Valid() && capacity >= old(capacity)
      ensures numChars > 0 && charIn != [] ==> |chars| == numChars && forall k :: 0 <= k < numChars ==> chars[k] == charIn[0]
      ensures !(numChars > 0 && charIn != []) ==> chars == old(chars)
    {
      if |charIn| == 0 || numChars <= 0 {
        return;
      }
      var c := charIn[0];
      ghost var cap0 := capacity;
      // SetNumUninitialized(numChars + 1): the old characters are kept where the new array
      // overlaps them and overwritten below; one more slot holds the terminator.
      var previous := chars;
      chars := seq(numChars, k requires 0 <= k < numChars => if k < |previous| then previous[k] else c);
      if capacity < numChars + 1 {
        capacity := numChars + 1;
      }
      var index := 0;
      while index < numChars
        invariant 0 <= index <= numChars && |chars| == numChars
        invariant capacity >= numChars + 1 && capacity >= cap0
        invariant forall k :: 0 <= k < index ==> chars[k] == c
      {
        chars := chars[index := c];
        index := index + 1;
      }
    }

    /** SetReserved: room for at least `reserve` characters is allocated; the characters stay as they are. */
    method SetReserved(reserve: int)
      requires Valid()
      modifies this
      ensures Valid() && chars == old(chars)
      ensures reserve > 0 ==> capacity == if old(capacity) < reserve then reserve else old(capacity)
      ensures reserve <= 0 ==> capacity == old(capacity)
    {
      if reserve > 0 {
        Reserve(reserve);
      }
    }

    /** TArray::Reserve: grow the allocation to `n` when it is smaller. */
    method Reserve(n: int)
      requires Valid()
      modifies this
      ensures Valid() && chars == old(chars)
      ensures capacity == if old(capacity) < n then n else old(capacity)
    {
      if capacity < n {
        capacity := n;
      }
    }

    /** Appending one string, after reserving room for the result. */
    method AppendTo(appendage: string)
      requires Valid()
      modifies this
      ensures Valid() && capacity >= old(capacity)
      ensures chars == old(chars) + appendage
    {
      Reserve(|chars| + |appendage|);
      chars := chars + appendage;
    }

    /** Appending several strings in order, after reserving room for all of them at once. */
    method AppendStringsTo(appendages: seq<string>)
      requires Valid()
      modifies this
      ensures Valid() && capacity >= old(capacity)
      ensures chars == old(chars) + Concat(appendages)
      ensures capacity >= |old(chars)| + |Concat(appendages)|
    {
      var numNewChars := 0;
      var index := 0;
      while index < |appendages|
        invariant 0 <= index <= |appendages|
        invariant numNewChars == |Concat(appendages[..index])|
        invariant chars == old(chars) && capacity == old(capacity)
      {
        ConcatAppend(appendages[..index], [appendages[index]]);
        assert appendages[..index + 1] == appendages[..index] + [appendages[index]];
        numNewChars := numNewChars + |appendages[index]|;
        index := index + 1;
      }
      assert appendages[..index] == appendages;
      Reserve(|chars| + numNewChars);
      ghost var start := chars;
      index := 0;
      while index < |appendages|
        invariant 0 <= index <= |appendages|
        invariant chars == start + Concat(appendages[..index])
        invariant capacity >= |start| + numNewChars && capacity >= old(capacity)
        invariant |Concat(appendages[..index])| <= numNewChars
      {
        ConcatAppend(appendages[..index], [appendages[index]]);
        assert appendages[..index + 1] == appendages[..index] + [appendages[index]];
        ConcatAppend(appendages[..index + 1], appendages[index + 1..]);
        assert appendages[..index + 1] + appendages[index + 1..] == appendages;
        chars := chars + appendages[index];
        index := index + 1;
      }
      assert appendages[..index] == appendages;
    }

    /**
     * ToTitleStringInline: one pass with a flag that is set by whitespace; the first
     * non-whitespace character after it is upper-cased, every other one lower-cased.
     */
    method ToTitleStringInline(cc: CharClass)
      requires Valid()
      modifies this
      ensures Valid() && capacity == old(capacity)
      ensures TitleCased(old(chars), chars, cc)
    {
      var makeUpper := true;
      var length := |chars|;
      var i := 0;
      while i < length
        invariant 0 <= i <= length == |chars| == |old(chars)|
        invariant capacity == old(capacity)
        invariant makeUpper <==> WordStart(old(chars), i, cc)
        invariant forall k :: 0 <= k < i ==> chars[k] == TitleChar(old(chars), k, cc)
        invariant forall k :: i <= k < length ==> chars[k] == old(chars)[k]
      {
        if cc.isWhitespace(chars[i]) {
          makeUpper := true;
          i := i + 1;
          continue;
        }
        if makeUpper {
          chars := chars[i := cc.toUpper(chars[i])];
          makeUpper := false;
        } else {
          chars := chars[i := cc.toLower(chars[i])];
        }
        i := i + 1;
      }
    }
  }

  /** Position `i` starts a word: it is the first position or follows whitespace. */
  predicate WordStart(s: string, i: int, cc: CharClass)
    requires 0 <= i <= |s|
  {
    i == 0 || cc.isWhitespace(s[i - 1])
  }

  /** The character written at position `k` in title case. */
  function TitleChar(s: string, k: int, cc: CharClass): char
    requires 0 <= k < |s|
  {
    if cc.isWhitespace(s[k]) then s[k]
    else if WordStart(s, k, cc) then cc.toUpper(s[k])
    else cc.toLower(s[k])
  }

  /**
   * `t` is `s` in title case: the same length, whitespace as it was, the first character of
   * every word upper-cased and every other character lower-cased.
   */
  ghost predicate TitleCased(s: string, t: string, cc: CharClass)
  {
    |t| == |s| && forall k :: 0 <= k < |s| ==> t[k] == TitleChar(s, k, cc)
  }

  /** ToTitleString: the title-cased copy; the argument itself is not changed. */
  method ToTitleString(s: string, cc: CharClass) returns (r: string)
    ensures TitleCased(s, r, cc)
  {
    var copy := new FString(s);
    copy.ToTitleStringInline(cc);
    r := copy.chars;
  }

  /** Title case is determined by the original: two title-cased versions of the same text agree. */
  lemma TitleCasedUnique(s: string, t: string, u: string, cc: CharClass)
    requires TitleCased(s, t, cc) && TitleCased(s, u, cc)
    ensures t == u
  {
    assert forall k :: 0 <= k < |t| ==> t[k] == u[k];
  }

  /** The 16-bit storage unit of a character (characters beyond it are truncated). */
  function Unit(c: char): int
  {
    c as int % 0x1_0000
  }

  /**
   * CharToBytes: the two memory bytes of the 16-bit character at `index`, low byte first;
   * (0, 0) out of range.
   */
  function CharToBytes(s: string, index: int): (r: (int, int))
    ensures 0 <= r.0 < 0x100 && 0 <= r.1 < 0x100
    ensures 0 <= index < |s| ==> r.0 + 0x100 * r.1 == Unit(s[index])
    ensures !(0 <= index < |s|) ==> r == (0, 0)
  {
    if |s| <= index || index < 0 then (0, 0)
    else (Unit(s[index]) % 0x100, Unit(s[index]) / 0x100)
  }
}
