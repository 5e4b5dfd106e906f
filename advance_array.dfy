/**
 * The array utilities of the library: index of the minimum and maximum, reversal, clamping in
 * place, inclusive extraction, splitting a string by a separator or into fixed-size chunks,
 * sorting with the engine's `<` or its reverse predicate, regex filters and predicate filters.
 * Integer arrays hold unbounded integers; the element types the templates are instantiated with
 * besides int32 and FString (floats, vectors, actors) are not modelled.
 */
module AdvanceArray {
  import opened Text

  // ---------------------------------------------------------------------------------------------
  // Minimum, Maximum

  /** Index of the first smallest element, or -1 for an empty array. */
  method Minimum(a: seq<int>) returns (index: int)
    ensures a == [] ==> index == -1
    ensures a != [] ==> 0 <= index < |a|
    ensures a != [] ==> forall j :: 0 <= j < |a| ==> a[index] <= a[j]
    ensures a != [] ==> forall j :: 0 <= j < index ==> a[index] < a[j]
  {
    index := if |a| > 0 then 0 else -1;
    var i := 1;
    while i < |a|
      invariant a == [] ==> index == -1
      invariant a != [] ==> 1 <= i <= |a| && 0 <= index < i
      invariant a != [] ==> forall j :: 0 <= j < i ==> a[index] <= a[j]
      invariant a != [] ==> forall j :: 0 <= j < index ==> a[index] < a[j]
    {
      if a[i] < a[index] {
        index := i;
      }
      i := i + 1;
    }
  }

  /** Index of the first largest element, or -1 for an empty array. */
  method Maximum(a: seq<int>) returns (index: int)
    ensures a == [] ==> index == -1
    ensures a != [] ==> 0 <= index < |a|
    ensures a != [] ==> forall j :: 0 <= j < |a| ==> a[j] <= a[index]
    ensures a != [] ==> forall j :: 0 <= j < index ==> a[j] < a[index]
  {
    index := if |a| > 0 then 0 else -1;
    var i := 1;
    while i < |a|
      invariant a == [] ==> index == -1
      invariant a != [] ==> 1 <= i <= |a| && 0 <= index < i
      invariant a != [] ==> forall j :: 0 <= j < i ==> a[j] <= a[index]
      invariant a != [] ==> forall j :: 0 <= j < index ==> a[j] < a[index]
    {
      if a[i] > a[index] {
        index := i;
      }
      i := i + 1;
    }
  }

  // ---------------------------------------------------------------------------------------------
  // Reverse, Extract

  /** The elements from the last to the first. */
  method Reverse<T>(a: seq<T>) returns (r: seq<T>)
    ensures |r| == |a|
    ensures forall i :: 0 <= i < |a| ==> r[i] == a[|a| - 1 - i]
  {
    r := [];
    var i := |a| - 1;
    while i >= 0
      invariant -1 <= i < |a|
      invariant |r| == |a| - 1 - i
      invariant forall k :: 0 <= k < |r| ==> r[k] == a[|a| - 1 - k]
    {
      r := r + [a[i]];
      i := i - 1;
    }
  }

  /**
   * Elements `start` to `end`, both included, when `start < end < |a|`; nothing otherwise.
   * A negative `start` is not checked before indexing, so callers must not pass one.
   */
  method Extract<T>(a: seq<T>, start: int, end: int) returns (sub: seq<T>)
    requires start < end < |a| ==> 0 <= start
    ensures start < end < |a| ==> sub == a[start..end + 1]
    ensures !(start < end < |a|) ==> sub == []
  {
    sub := [];
    if start < end && end < |a| {
      var i := start;
      while i <= end
        invariant start <= i <= end + 1
        invariant sub == a[start..i]
      {
        sub := sub + [a[i]];
        i := i + 1;
      }
    }
  }

  // ---------------------------------------------------------------------------------------------
  // Clamp

  function ClampOne(x: int, lo: int, hi: int): int
  {
    if x < lo then lo else if x > hi then hi else x
  }

  /** The array after clamping: unchanged unless `lo < hi`; then every element lies in [lo, hi]. */
  function Clamped(s: seq<int>, lo: int, hi: int): (r: seq<int>)
    ensures |r| == |s|
    ensures lo >= hi ==> r == s
    ensures lo < hi ==> forall i :: 0 <= i < |s| ==> lo <= r[i] <= hi
    ensures lo < hi ==> forall i :: 0 <= i < |s| && lo <= s[i] <= hi ==> r[i] == s[i]
    ensures lo < hi ==> forall i :: 0 <= i < |s| && s[i] < lo ==> r[i] == lo
    ensures lo < hi ==> forall i :: 0 <= i < |s| && s[i] > hi ==> r[i] == hi
  {
    if lo < hi then seq(|s|, i requires 0 <= i < |s| => ClampOne(s[i], lo, hi)) else s
  }

  /** Clamp and ClampIntegerRef: the caller's array is clamped element by element. */
  method Clamp(a: array<int>, lo: int, hi: int)
    modifies a
    ensures a[..] == Clamped(old(a[..]), lo, hi)
  {
    if lo < hi {
      var i := 0;
      while i < a.Length
        invariant 0 <= i <= a.Length
        invariant forall k :: 0 <= k < i ==> a[k] == ClampOne(old(a[k]), lo, hi)
        invariant forall k :: i <= k < a.Length ==> a[k] == old(a[k])
      {
        if a[i] < lo {
          a[i] := lo;
        } else if a[i] > hi {
          a[i] := hi;
        }
        i := i + 1;
      }
    }
  }

  /** ClampInteger: takes the array by value, so the caller's array is left as it was. */
  method ClampInteger(a: array<int>, lo: int, hi: int) returns (r: array<int>)
    ensures fresh(r)
    ensures r[..] == Clamped(a[..], lo, hi)
  {
    r := new int[a.Length](i requires 0 <= i < a.Length reads a => a[i]);
    assert r[..] == a[..];
    Clamp(r, lo, hi);
  }

  // ---------------------------------------------------------------------------------------------
  // SplitString

  /** The pieces between successive first occurrences of `sep`, scanning from the start. */
  function Pieces(s: string, sep: string): (r: seq<string>)
    requires |sep| > 0
    ensures |r| >= 1
    decreases |s|
  {
    var i := Find(s, sep);
    if i < 0 then [s] else [s[..i]] + Pieces(s[i + |sep|..], sep)
  }

  /** The pieces written with `sep` between neighbours. */
  function Join(pieces: seq<string>, sep: string): string
  {
    if pieces == [] then "" else if |pieces| == 1 then pieces[0] else pieces[0] + sep + Join(pieces[1..], sep)
  }

  /** The non-empty pieces, in order. */
  function NonEmpty(pieces: seq<string>): (r: seq<string>)
    ensures forall k :: 0 <= k < |r| ==> r[k] != []
  {
    if pieces == [] then [] else (if pieces[0] == [] then [] else [pieces[0]]) + NonEmpty(pieces[1..])
  }

  /** SplitString's result: every piece, or only the non-empty ones when `removeEmpty` is set. */
  function SplitResult(s: string, sep: string, removeEmpty: bool): seq<string>
    requires |sep| > 0
  {
    if removeEmpty then NonEmpty(Pieces(s, sep)) else Pieces(s, sep)
  }

  /** FString::Split at the first occurrence: false, and nothing written, when there is none. */
  function SplitFirst(s: string, sep: string): (r: (bool, string, string))
    requires |sep| > 0
    ensures r.0 <==> Contains(s, sep)
    ensures r.0 ==> s == r.1 + sep + r.2 && !Contains(r.1, sep)
  {
    var i := Find(s, sep);
    if i < 0 then (false, "", "")
    else
      assert s == s[..i] + sep + s[i + |sep|..] by {
        assert s[i..i + |sep|] == sep;
      }
      PrefixFree(s, sep, i);
      (true, s[..i], s[i + |sep|..])
  }

  lemma PrefixFree(s: string, sep: string, i: nat)
    requires |sep| > 0 && i <= |s|
    requires forall j :: 0 <= j < i ==> !OccursAt(s, sep, j)
    ensures !Contains(s[..i], sep)
  {
    forall j | 0 <= j <= i && OccursAt(s[..i], sep, j)
      ensures false
    {
      assert s[..i][j..j + |sep|] == s[j..j + |sep|];
      assert OccursAt(s, sep, j);
    }
  }

  /** A piece as SplitString keeps it: not at all when it is empty and empty pieces are removed. */
  function Kept(piece: string, removeEmpty: bool): seq<string>
  {
    if removeEmpty && piece == [] then [] else [piece]
  }

  /** One split: the kept left part, then the result for the rest, or the kept text when there is no separator. */
  lemma SplitStep(text: string, sep: string, removeEmpty: bool)
    requires |sep| > 0
    ensures SplitFirst(text, sep).0 ==>
      SplitResult(text, sep, removeEmpty) ==
      Kept(SplitFirst(text, sep).1, removeEmpty) + SplitResult(SplitFirst(text, sep).2, sep, removeEmpty)
    ensures !SplitFirst(text, sep).0 ==> SplitResult(text, sep, removeEmpty) == Kept(text, removeEmpty)
  {
    var i := Find(text, sep);
    if i >= 0 {
      var ps := Pieces(text[i + |sep|..], sep);
      assert Pieces(text, sep) == [text[..i]] + ps;
      assert ([text[..i]] + ps)[1..] == ps;
    } else {
      assert Pieces(text, sep) == [text];
      assert [text][1..] == [];
      assert NonEmpty([text]) == (if text == [] then [] else [text]) + NonEmpty([]);
    }
  }

  /**
   * SplitString: split at the first separator, keep the left part (unless it is empty and empty
   * parts are removed), continue with the right part; the text after the last separator is kept
   * by the same rule.
   */
  method SplitString(s: string, sep: string, removeEmpty: bool) returns (r: seq<string>)
    requires |sep| > 0
    ensures r == SplitResult(s, sep, removeEmpty)
  {
    var text := s;
    var left, right := "", "";
    r := [];
    var split := true;
    while split
      invariant split ==> r + SplitResult(text, sep, removeEmpty) == SplitResult(s, sep, removeEmpty)
      invariant !split ==> r == SplitResult(s, sep, removeEmpty)
      decreases split, |text|
    {
      SplitStep(text, sep, removeEmpty);
      var found := SplitFirst(text, sep);
      split := found.0;
      ghost var r0 := r;
      ghost var piece := if split then found.1 else text;
      if split {
        left, right := found.1, found.2;
        if removeEmpty {
          if left != [] {
            r := r + [left];
          }
        } else {
          r := r + [left];
        }
      } else {
        if removeEmpty {
          if text != [] {
            r := r + [text];
          }
        } else {
          r := r + [text];
        }
      }
      assert r == r0 + Kept(piece, removeEmpty);
      if split {
        assert r + SplitResult(right, sep, removeEmpty) == r0 + (Kept(piece, removeEmpty) + SplitResult(right, sep, removeEmpty));
      }
      text := right;
    }
  }

  /** Joining the pieces with the separator gives the text back. */
  lemma {:induction false} PiecesJoin(s: string, sep: string)
    requires |sep| > 0
    ensures Join(Pieces(s, sep), sep) == s
    decreases |s|
  {
    var found := SplitFirst(s, sep);
    if found.0 {
      var ps := Pieces(found.2, sep);
      PiecesJoin(found.2, sep);
      assert Pieces(s, sep) == [found.1] + ps;
      assert ([found.1] + ps)[1..] == ps;
    }
  }

  /** No piece contains the separator. */
  lemma {:induction false} PiecesFree(s: string, sep: string)
    requires |sep| > 0
    ensures forall k :: 0 <= k < |Pieces(s, sep)| ==> !Contains(Pieces(s, sep)[k], sep)
    decreases |s|
  {
    var i := Find(s, sep);
    if i >= 0 {
      PiecesFree(s[i + |sep|..], sep);
      PrefixFree(s, sep, i);
    }
  }

  /** Removing empty pieces keeps every non-empty piece, in order. */
  lemma {:induction false} NonEmptyKeeps(pieces: seq<string>, x: string)
    requires x != []
    ensures multiset(NonEmpty(pieces))[x] == multiset(pieces)[x]
  {
    if pieces != [] {
      NonEmptyKeeps(pieces[1..], x);
      assert pieces == [pieces[0]] + pieces[1..];
    }
  }

  // ---------------------------------------------------------------------------------------------
  // SplitStringBySizeToArray, SplitStringBySizeToOneLine

  function Min(a: int, b: int): int
  {
    if a < b then a else b
  }

  /** The text cut into pieces of `size` characters, the last one possibly shorter. */
  function Chunks(s: string, size: int): seq<string>
    requires size > 0 || s == []
    decreases |s|
  {
    if s == [] then [] else [s[..Min(size, |s|)]] + Chunks(s[Min(size, |s|)..], size)
  }

  /** Each chunk followed by a newline. */
  function Lines(chunks: seq<string>): string
  {
    if chunks == [] then "" else chunks[0] + "\n" + Lines(chunks[1..])
  }

  /**
   * SplitStringBySizeToArray: take the first `size` characters, then remove them, until the text
   * is empty. A non-empty text with `size <= 0` loops forever in the engine and is excluded here.
   */
  method SplitStringBySizeToArray(s: string, size: int) returns (r: seq<string>)
    requires size > 0 || s == []
    ensures r == Chunks(s, size)
  {
    var text := s;
    r := [];
    while text != []
      invariant size > 0 || text == []
      invariant r + Chunks(text, size) == Chunks(s, size)
      decreases |text|
    {
      var n := Min(size, |text|);
      r := r + [text[..n]];
      text := text[n..];
    }
  }

  /** SplitStringBySizeToOneLine: the same chunks, each written followed by "\n". */
  method SplitStringBySizeToOneLine(s: string, size: int) returns (r: string)
    requires size > 0 || s == []
    ensures r == Lines(Chunks(s, size))
  {
    var text := s;
    r := "";
    while text != []
      invariant size > 0 || text == []
      invariant r + Lines(Chunks(text, size)) == Lines(Chunks(s, size))
      decreases |text|
    {
      var n := Min(size, |text|);
      r := r + (text[..n] + "\n");
      text := text[n..];
    }
  }

  /** The chunks written one after the other give the text back. */
  lemma {:induction false} ChunksConcat(s: string, size: int)
    requires size > 0 || s == []
    ensures Concat(Chunks(s, size)) == s
    decreases |s|
  {
    if s != [] {
      var n := Min(size, |s|);
      ChunksConcat(s[n..], size);
      assert s == s[..n] + s[n..];
    }
  }

  /** Every chunk but the last has `size` characters; the last has between 1 and `size`. */
  lemma {:induction false} ChunksSizes(s: string, size: int)
    requires size > 0 || s == []
    ensures Chunks(s, size) == [] <==> s == []
    ensures forall k :: 0 <= k < |Chunks(s, size)| - 1 ==> |Chunks(s, size)[k]| == size
    ensures Chunks(s, size) != [] ==> 1 <= |Chunks(s, size)[|Chunks(s, size)| - 1]| <= size
    decreases |s|
  {
    if s != [] {
      var n := Min(size, |s|);
      ChunksSizes(s[n..], size);
      if s[n..] != [] {
        assert n == size;
      }
    }
  }

  // ---------------------------------------------------------------------------------------------
  // Sort

  /**
   * `lt` is a strict weak order, as TArray::Sort requires of its predicate: never both
   * `lt(x, y)` and `lt(y, x)`, and "not less than" is transitive.
   */
  ghost predicate StrictWeak<T(!new)>(lt: (T, T) -> bool)
  {
    (forall x, y :: lt(x, y) ==> !lt(y, x)) &&
    (forall x, y, z :: !lt(x, y) && !lt(y, z) ==> !lt(x, z))
  }

  /** No element is less than one before it. */
  ghost predicate Ordered<T>(s: seq<T>, lt: (T, T) -> bool)
  {
    forall i, j :: 0 <= i < j < |s| ==> !lt(s[j], s[i])
  }

  /** The predicate the sort uses: `lt` when ascending, TReverseSortPredicate's `A > B` otherwise. */
  function Direction<T>(lt: (T, T) -> bool, ascending: bool): (T, T) -> bool
  {
    if ascending then lt else (x: T, y: T) => lt(y, x)
  }

  lemma DirectionStrictWeak<T(!new)>(lt: (T, T) -> bool, ascending: bool)
    requires StrictWeak(lt)
    ensures StrictWeak(Direction(lt, ascending))
  {
  }

  function Insert<T>(x: T, s: seq<T>, lt: (T, T) -> bool): (r: seq<T>)
    ensures multiset(r) == multiset(s) + multiset{x}
  {
    if s == [] then [x]
    else if lt(s[0], x) then
      assert s == [s[0]] + s[1..];
      [s[0]] + Insert(x, s[1..], lt)
    else [x] + s
  }

  /** The order the sorted array is built in: insertion, one element after another. */
  function InsertionSort<T>(s: seq<T>, lt: (T, T) -> bool): (r: seq<T>)
    ensures multiset(r) == multiset(s)
  {
    if s == [] then []
    else
      assert s == [s[0]] + s[1..];
      Insert(s[0], InsertionSort(s[1..], lt), lt)
  }

  lemma {:induction false} InsertOrdered<T(!new)>(x: T, s: seq<T>, lt: (T, T) -> bool)
    requires StrictWeak(lt) && Ordered(s, lt)
    ensures Ordered(Insert(x, s, lt), lt)
  {
    if s != [] {
      if lt(s[0], x) {
        var tail := Insert(x, s[1..], lt);
        InsertOrdered(x, s[1..], lt);
        forall k | 0 <= k < |tail|
          ensures !lt(tail[k], s[0])
        {
          assert tail[k] in multiset(tail);
          assert tail[k] in multiset(s[1..]) || tail[k] == x;
          if tail[k] != x {
            var j :| 0 <= j < |s[1..]| && s[1..][j] == tail[k];
            assert s[j + 1] == tail[k];
          }
        }
      }
    }
  }

  lemma {:induction false} InsertionSortOrdered<T(!new)>(s: seq<T>, lt: (T, T) -> bool)
    requires StrictWeak(lt)
    ensures Ordered(InsertionSort(s, lt), lt)
  {
    if s != [] {
      InsertionSortOrdered(s[1..], lt);
      InsertOrdered(s[0], InsertionSort(s[1..], lt), lt);
    }
  }

  /** Sort: the caller's array is reordered so that no element is less than one before it. */
  method Sort<T(!new)>(a: array<T>, lt: (T, T) -> bool, ascending: bool) returns (r: seq<T>)
    requires StrictWeak(lt)
    modifies a
    ensures a[..] == r
    ensures multiset(r) == multiset(old(a[..]))
    ensures Ordered(r, Direction(lt, ascending))
  {
    var order := Direction(lt, ascending);
    DirectionStrictWeak(lt, ascending);
    var sorted := InsertionSort(a[..], order);
    InsertionSortOrdered(a[..], order);
    forall i | 0 <= i < a.Length {
      a[i] := sorted[i];
    }
    assert a[..] == sorted;
    r := a[..];
  }

  lemma IntLessStrictWeak()
    ensures StrictWeak((x: int, y: int) => x < y)
  {
  }

  /** SortInteger: a sorted copy; ascending by `<`, descending by `>`. */
  method SortInteger(s: seq<int>, ascending: bool) returns (r: seq<int>)
    ensures multiset(r) == multiset(s)
    ensures ascending ==> forall i, j :: 0 <= i < j < |r| ==> r[i] <= r[j]
    ensures !ascending ==> forall i, j :: 0 <= i < j < |r| ==> r[i] >= r[j]
  {
    var a := new int[|s|](i requires 0 <= i < |s| => s[i]);
    assert a[..] == s;
    IntLessStrictWeak();
    r := Sort(a, (x: int, y: int) => x < y, ascending);
  }

  /** ASCII letters folded to lower case, as the engine's case-insensitive comparison does. */
  function Fold(c: char): char
  {
    if 'A' <= c <= 'Z' then (c as int + 32) as char else c
  }

  function FoldAll(s: string): (r: string)
    ensures |r| == |s|
  {
    if s == [] then [] else [Fold(s[0])] + FoldAll(s[1..])
  }

  /** Lexicographic order on characters; a proper prefix comes first. */
  predicate LexLess(u: string, v: string)
  {
    if u == [] then v != []
    else if v == [] then false
    else if u[0] == v[0] then LexLess(u[1..], v[1..])
    else u[0] < v[0]
  }

  /** FString's `<`: Stricmp below zero. */
  predicate StringLess(a: string, b: string)
  {
    LexLess(FoldAll(a), FoldAll(b))
  }

  lemma {:induction false} LexTotal(u: string, v: string)
    ensures LexLess(u, v) || u == v || LexLess(v, u)
    ensures !(LexLess(u, v) && LexLess(v, u))
  {
    if u != [] && v != [] && u[0] == v[0] {
      LexTotal(u[1..], v[1..]);
      if u[1..] == v[1..] {
        assert u == [u[0]] + u[1..] && v == [v[0]] + v[1..];
      }
    }
  }

  lemma {:induction false} LexTrans(u: string, v: string, w: string)
    requires LexLess(u, v) && LexLess(v, w)
    ensures LexLess(u, w)
  {
    if u != [] && u[0] == v[0] && v[0] == w[0] {
      LexTrans(u[1..], v[1..], w[1..]);
    }
  }

  lemma StringLessStrictWeak()
    ensures StrictWeak(StringLess)
  {
    forall x, y | StringLess(x, y)
      ensures !StringLess(y, x)
    {
      LexTotal(FoldAll(x), FoldAll(y));
    }
    forall x, y, z | !StringLess(x, y) && !StringLess(y, z)
      ensures !StringLess(x, z)
    {
      var fx, fy, fz := FoldAll(x), FoldAll(y), FoldAll(z);
      LexTotal(fx, fy);
      LexTotal(fy, fz);
      LexTotal(fx, fz);
      if LexLess(fz, fy) && LexLess(fy, fx) {
        LexTrans(fz, fy, fx);
      }
    }
  }

  /** SortString: a sorted copy under the case-insensitive order; equal-ignoring-case strings may come in any order. */
  method SortString(s: seq<string>, ascending: bool) returns (r: seq<string>)
    ensures multiset(r) == multiset(s)
    ensures ascending ==> forall i, j :: 0 <= i < j < |r| ==> !StringLess(r[j], r[i])
    ensures !ascending ==> forall i, j :: 0 <= i < j < |r| ==> !StringLess(r[i], r[j])
  {
    var a := new string[|s|](i requires 0 <= i < |s| => s[i]);
    assert a[..] == s;
    StringLessStrictWeak();
    r := Sort(a, StringLess, ascending);
  }

  // ---------------------------------------------------------------------------------------------
  // FilterMatches, FilterMatch (the regular expression is a parameter: `matches(x)` says whether
  // the pattern is found anywhere in `x`)

  /** Indexes of the matching elements, in increasing order. */
  function MatchIndexes(a: seq<string>, matches: string -> bool): (r: seq<int>)
    ensures forall k :: 0 <= k < |r| ==> 0 <= r[k] < |a|
  {
    if a == [] then []
    else MatchIndexes(a[..|a| - 1], matches) + (if matches(a[|a| - 1]) then [|a| - 1] else [])
  }

  /** The elements at the given indexes. */
  function Picks(a: seq<string>, idx: seq<int>): (r: seq<string>)
    requires forall k :: 0 <= k < |idx| ==> 0 <= idx[k] < |a|
    ensures |r| == |idx| && forall k :: 0 <= k < |idx| ==> r[k] == a[idx[k]]
  {
    if idx == [] then [] else [a[idx[0]]] + Picks(a, idx[1..])
  }

  /**
   * FilterMatches: every matching element in order; their indexes are appended to the caller's
   * `indexes`, which is not cleared first.
   */
  method FilterMatches(a: seq<string>, matches: string -> bool, indexes: seq<int>)
    returns (r: seq<string>, found: bool, indexesOut: seq<int>)
    ensures indexesOut == indexes + MatchIndexes(a, matches)
    ensures r == Picks(a, MatchIndexes(a, matches))
    ensures found <==> r != []
  {
    r := [];
    found := false;
    indexesOut := indexes;
    var i := 0;
    while i < |a|
      invariant 0 <= i <= |a|
      invariant indexesOut == indexes + MatchIndexes(a[..i], matches)
      invariant r == Picks(a, MatchIndexes(a[..i], matches))
      invariant found <==> r != []
    {
      assert a[..i + 1][..i] == a[..i];
      if matches(a[i]) {
        found := true;
        r := r + [a[i]];
        indexesOut := indexesOut + [i];
      }
      i := i + 1;
    }
    assert a[..i] == a;
  }

  /** The matching indexes are increasing, every one matches, and no matching index is missing. */
  lemma {:induction false} MatchIndexesExact(a: seq<string>, matches: string -> bool)
    ensures forall k, l :: 0 <= k < l < |MatchIndexes(a, matches)| ==> MatchIndexes(a, matches)[k] < MatchIndexes(a, matches)[l]
    ensures forall k :: 0 <= k < |MatchIndexes(a, matches)| ==> matches(a[MatchIndexes(a, matches)[k]])
    ensures forall i :: 0 <= i < |a| && matches(a[i]) ==> i in MatchIndexes(a, matches)
  {
    if a != [] {
      var init := a[..|a| - 1];
      MatchIndexesExact(init, matches);
      forall k | 0 <= k < |MatchIndexes(init, matches)|
        ensures a[MatchIndexes(init, matches)[k]] == init[MatchIndexes(init, matches)[k]]
      {
      }
    }
  }

  /** FilterMatch: the first matching element and its index, or "" and -1 when none matches. */
  method FilterMatch(a: seq<string>, matches: string -> bool) returns (r: string, found: bool, index: int)
    ensures found ==> 0 <= index < |a| && r == a[index] && matches(r)
    ensures found ==> forall j :: 0 <= j < index ==> !matches(a[j])
    ensures !found ==> r == "" && index == -1 && forall j :: 0 <= j < |a| ==> !matches(a[j])
  {
    found := false;
    index := 0;
    while index < |a|
      invariant 0 <= index <= |a|
      invariant forall j :: 0 <= j < index ==> !matches(a[j])
    {
      if matches(a[index]) {
        found := true;
        return a[index], found, index;
      }
      index := index + 1;
    }
    index := -1;
    r := "";
  }

  // ---------------------------------------------------------------------------------------------
  // PredicateFilter* (the delegate is a parameter and is assumed bound)

  /** The elements on which the predicate, inverted when `invert` is set, holds, in order. */
  function PredicateFilter<T>(a: seq<T>, pred: T -> bool, invert: bool): (r: seq<T>)
    ensures |r| <= |a|
    ensures forall k :: 0 <= k < |r| ==> pred(r[k]) != invert
  {
    if a == [] then []
    else (if pred(a[0]) != invert then [a[0]] else []) + PredicateFilter(a[1..], pred, invert)
  }

  /** Filtering a concatenation filters each part, keeping their order. */
  lemma {:induction false} PredicateFilterAppend<T>(a: seq<T>, b: seq<T>, pred: T -> bool, invert: bool)
    ensures PredicateFilter(a + b, pred, invert) == PredicateFilter(a, pred, invert) + PredicateFilter(b, pred, invert)
  {
    if a != [] {
      assert (a + b)[0] == a[0] && (a + b)[1..] == a[1..] + b;
      PredicateFilterAppend(a[1..], b, pred, invert);
      var head := if pred(a[0]) != invert then [a[0]] else [];
      assert PredicateFilter(a + b, pred, invert) == head + PredicateFilter(a[1..] + b, pred, invert);
      assert PredicateFilter(a, pred, invert) == head + PredicateFilter(a[1..], pred, invert);
    } else {
      assert a + b == b;
    }
  }

  /** The plain and the inverted filter split the array between them. */
  lemma {:induction false} PredicateFilterSplit<T>(a: seq<T>, pred: T -> bool)
    ensures multiset(PredicateFilter(a, pred, false)) + multiset(PredicateFilter(a, pred, true)) == multiset(a)
  {
    if a != [] {
      PredicateFilterSplit(a[1..], pred);
      var head := [a[0]];
      assert PredicateFilter(a, pred, false) == (if pred(a[0]) then head else []) + PredicateFilter(a[1..], pred, false);
      assert PredicateFilter(a, pred, true) == (if pred(a[0]) then [] else head) + PredicateFilter(a[1..], pred, true);
      assert a == head + a[1..];
    }
  }
}
