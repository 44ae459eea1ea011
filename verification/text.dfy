/**
 * The Rust string and slice primitives the symbolicator is built from, stated
 * over sequences: `contains`, `find`, `split_once`, `split`, `trim`,
 * `trim_end_matches`, `split_whitespace`, ASCII `to_lowercase` and the `{:x}`
 * formatter. Each one carries the contract that pins it down.
 */
module Text {
  import opened Wrappers

  // ------------------------------------------------------------ occurrences

  /** `pat` occurs in `s` starting at index `i`. */
  predicate OccursAt<T(==)>(s: seq<T>, pat: seq<T>, i: int) {
    0 <= i && i + |pat| <= |s| && s[i..i + |pat|] == pat
  }

  /** `str::contains`: `pat` occurs somewhere in `s`. */
  predicate Contains<T(==)>(s: seq<T>, pat: seq<T>) {
    exists i | 0 <= i <= |s| :: OccursAt(s, pat, i)
  }

  /** The leftmost occurrence of `pat` in `s` starts at `i`. */
  ghost predicate FirstOccurrence<T>(s: seq<T>, pat: seq<T>, i: int) {
    OccursAt(s, pat, i) && forall j | 0 <= j < i :: !OccursAt(s, pat, j)
  }

  function FindFrom<T(==)>(s: seq<T>, pat: seq<T>, from: nat): (r: Option<nat>)
    requires from <= |s|
    ensures r.Some? ==> from <= r.value && OccursAt(s, pat, r.value)
    ensures r.Some? ==> forall j | from <= j < r.value :: !OccursAt(s, pat, j)
    ensures r.None? ==> forall j | from <= j :: !OccursAt(s, pat, j)
    decreases |s| - from
  {
    if OccursAt(s, pat, from) then Some(from)
    else if from == |s| then None
    else FindFrom(s, pat, from + 1)
  }

  /** `str::find`: where the leftmost occurrence of `pat` starts, if there is one. */
  function Find<T(==)>(s: seq<T>, pat: seq<T>): (r: Option<nat>)
    ensures r.Some? ==> FirstOccurrence(s, pat, r.value)
    ensures r.None? <==> !Contains(s, pat)
  {
    FindFrom(s, pat, 0)
  }

  /** `Iterator::position`: the index of the first element satisfying `p`, if any. */
  function FirstIndex<T>(s: seq<T>, p: T -> bool): (r: Option<nat>)
    ensures r.Some? ==> r.value < |s| && p(s[r.value])
    ensures r.Some? ==> forall j | 0 <= j < r.value :: !p(s[j])
    ensures r.None? <==> forall j | 0 <= j < |s| :: !p(s[j])
  {
    if s == [] then None
    else if p(s[0]) then Some(0)
    else match FirstIndex(s[1..], p)
      case None => None
      case Some(i) => Some(i + 1)
  }

  /** A slice holds only elements of the whole. */
  lemma SliceOmits<T>(s: seq<T>, i: nat, j: nat, x: T)
    requires i <= j <= |s| && x !in s
    ensures x !in s[i..j]
  {
    assert forall k | 0 <= k < j - i :: s[i..j][k] == s[i + k];
  }

  /** An occurrence inside a prefix of `s` is an occurrence in `s`. */
  lemma OccursInPrefix<T>(s: seq<T>, pat: seq<T>, n: nat, j: int)
    requires n <= |s|
    ensures OccursAt(s[..n], pat, j) ==> OccursAt(s, pat, j)
  {
    if OccursAt(s[..n], pat, j) {
      assert s[..n][j..j + |pat|] == s[j..j + |pat|];
    }
  }

  // ------------------------------------------------------------ splitting

  /** `str::split_once`: the text before and after the leftmost occurrence of `pat`. */
  function SplitOnce<T(==)>(s: seq<T>, pat: seq<T>): (r: Option<(seq<T>, seq<T>)>)
    ensures r.None? <==> !Contains(s, pat)
    ensures r.Some? ==> s == r.value.0 + pat + r.value.1
    ensures r.Some? ==> FirstOccurrence(s, pat, |r.value.0|)
  {
    match Find(s, pat)
    case None => None
    case Some(i) =>
      assert s == s[..i] + s[i..i + |pat|] + s[i + |pat|..];
      Some((s[..i], s[i + |pat|..]))
  }

  /** `split_once` is determined by where the leftmost occurrence is. */
  lemma SplitOnceAt<T>(s: seq<T>, pat: seq<T>, i: nat)
    requires FirstOccurrence(s, pat, i)
    ensures SplitOnce(s, pat) == Some((s[..i], s[i + |pat|..]))
  {
    var k := Find(s, pat).value;
    assert !(k < i) && !(i < k);
  }

  /** A single separator element that does not occur in `head` is first found right after it. */
  lemma FirstOccurrenceOfElement<T>(head: seq<T>, x: T, tail: seq<T>)
    requires x !in head
    ensures FirstOccurrence(head + [x] + tail, [x], |head|)
  {
    var s := head + [x] + tail;
    assert s[|head|..|head| + 1] == [x];
    forall j | 0 <= j < |head| ensures !OccursAt(s, [x], j) {
      assert s[j..j + 1] == [head[j]];
    }
  }

  /** An element occurs in `s` exactly when it occurs as a one-element pattern. */
  lemma ElementOccurs<T>(s: seq<T>, x: T)
    ensures x in s <==> Contains(s, [x])
  {
    forall j | 0 <= j < |s| ensures OccursAt(s, [x], j) <==> s[j] == x {
      assert s[j..j + 1] == [s[j]];
    }
  }

  /** Before the first occurrence of a one-element pattern, the element does not occur. */
  lemma NoElementBeforeFirst<T>(s: seq<T>, x: T, i: nat)
    requires FirstOccurrence(s, [x], i)
    ensures x !in s[..i]
  {
    forall j | 0 <= j < i ensures s[j] != x {
      assert s[j..j + 1] == [s[j]];
      assert !OccursAt(s, [x], j);
    }
  }

  /**
   * `str::split` with a non-empty separator: the pieces between the
   * separator's non-overlapping occurrences, scanning from the left. There is
   * always at least one piece; a separator at either end yields an empty piece.
   */
  function Split<T(==)>(s: seq<T>, sep: seq<T>): (r: seq<seq<T>>)
    requires |sep| > 0
    ensures |r| >= 1
    decreases |s|
  {
    match SplitOnce(s, sep)
    case None => [s]
    case Some((head, tail)) => [head] + Split(tail, sep)
  }

  /**
   * `split` cuts at the leftmost occurrences, scanning on after each: every
   * piece but the last ends where the separator first occurs.
   */
  lemma {:induction false} SplitCutsAtFirst<T>(s: seq<T>, sep: seq<T>)
    requires |sep| > 0
    ensures CutAtFirst(Split(s, sep), sep)
    decreases |s|
  {
    var cut := SplitOnce(s, sep);
    if cut.Some? {
      var head := cut.value.0;
      var tail := cut.value.1;
      var rest := Split(tail, sep);
      assert Split(s, sep) == [head] + rest;
      SplitCutsAtFirst(tail, sep);
      PieceBeforeFirst(s, sep, head, tail);
      CutAtFirstCons(head, rest, sep);
    }
  }

  /** The last piece of a split holds no separator. */
  lemma {:induction false} SplitLastPiece<T>(s: seq<T>, sep: seq<T>)
    requires |sep| > 0
    ensures !Contains(Split(s, sep)[|Split(s, sep)| - 1], sep)
    decreases |s|
  {
    var cut := SplitOnce(s, sep);
    if cut.Some? {
      var rest := Split(cut.value.1, sep);
      assert Split(s, sep) == [cut.value.0] + rest;
      SplitLastPiece(cut.value.1, sep);
      assert ([cut.value.0] + rest)[|rest|] == rest[|rest| - 1];
    }
  }

  /** Every piece but the last, followed by the separator, has its leftmost separator at its end. */
  ghost predicate CutAtFirst<T>(parts: seq<seq<T>>, sep: seq<T>) {
    forall k | 0 <= k < |parts| - 1 :: FirstOccurrence(parts[k] + sep, sep, |parts[k]|)
  }

  lemma CutAtFirstCons<T>(head: seq<T>, rest: seq<seq<T>>, sep: seq<T>)
    requires |rest| >= 1
    ensures CutAtFirst([head] + rest, sep) <==> FirstOccurrence(head + sep, sep, |head|) && CutAtFirst(rest, sep)
  {
    var parts := [head] + rest;
    assert parts[0] == head;
    if CutAtFirst(parts, sep) {
      forall k | 0 <= k < |rest| - 1 ensures FirstOccurrence(rest[k] + sep, sep, |rest[k]|) {
        assert parts[k + 1] == rest[k];
      }
    }
    if FirstOccurrence(head + sep, sep, |head|) && CutAtFirst(rest, sep) {
      forall k | 0 <= k < |parts| - 1 ensures FirstOccurrence(parts[k] + sep, sep, |parts[k]|) {
        if k > 0 { assert parts[k] == rest[k - 1]; }
      }
    }
  }

  /** An occurrence that ends within a prefix is an occurrence in that prefix. */
  lemma OccursWithinPrefix<T>(s: seq<T>, pat: seq<T>, n: nat, j: nat)
    requires n <= |s| && j + |pat| <= n
    ensures OccursAt(s, pat, j) <==> OccursAt(s[..n], pat, j)
  {
    assert s[..n][j..j + |pat|] == s[j..j + |pat|];
  }

  /** The text up to the leftmost separator, with that separator, has it as its own leftmost one. */
  lemma PieceBeforeFirst<T>(s: seq<T>, sep: seq<T>, head: seq<T>, tail: seq<T>)
    requires s == head + sep + tail
    requires FirstOccurrence(s, sep, |head|)
    ensures FirstOccurrence(head + sep, sep, |head|)
  {
    var n := |head| + |sep|;
    assert s[..n] == head + sep;
    forall j | 0 <= j <= |head| ensures OccursAt(s, sep, j) <==> OccursAt(head + sep, sep, j) {
      OccursWithinPrefix(s, sep, n, j);
    }
  }

  /**
   * The pieces of a split are the only ones that join back into the text
   * with each but the last ending at its separator's leftmost occurrence and
   * the last holding none.
   */
  lemma {:induction false} SplitUnique<T>(s: seq<T>, sep: seq<T>, parts: seq<seq<T>>)
    requires |sep| > 0 && |parts| >= 1
    requires Join(parts, sep) == s
    requires CutAtFirst(parts, sep)
    requires !Contains(parts[|parts| - 1], sep)
    ensures Split(s, sep) == parts
    decreases |parts|
  {
    if |parts| == 1 {
      assert SplitOnce(s, sep).None?;
    } else {
      var head := parts[0];
      var tail := Join(parts[1..], sep);
      assert s == head + sep + tail;
      var n := |head| + |sep|;
      assert s[..n] == head + sep;
      CutAtFirstCons(head, parts[1..], sep);
      assert parts == [head] + parts[1..];
      forall j | 0 <= j <= |head| ensures OccursAt(s, sep, j) <==> OccursAt(head + sep, sep, j) {
        OccursWithinPrefix(s, sep, n, j);
      }
      SplitOnceAt(s, sep, |head|);
      assert s[..|head|] == head && s[n..] == tail;
      assert parts[1..][|parts| - 2] == parts[|parts| - 1];
      SplitUnique(tail, sep, parts[1..]);
    }
  }

  /** A separator element not occurring before it ends the first piece. */
  lemma SplitAtElement<T>(head: seq<T>, x: T, tail: seq<T>)
    requires x !in head
    ensures Split(head + [x] + tail, [x]) == [head] + Split(tail, [x])
  {
    var s := head + [x] + tail;
    FirstOccurrenceOfElement(head, x, tail);
    SplitOnceAt(s, [x], |head|);
    assert s[..|head|] == head && s[|head| + 1..] == tail;
  }

  /** The empty sequence splits into one empty piece. */
  lemma SplitEmpty<T>(sep: seq<T>)
    requires |sep| > 0
    ensures Split([], sep) == [[]]
  {
    assert !OccursAt([], sep, 0);
  }

  /** The pieces, each followed by `x` (lines with their terminators). */
  function Terminated<T>(parts: seq<seq<T>>, x: T): seq<T> {
    if parts == [] then [] else parts[0] + [x] + Terminated(parts[1..], x)
  }

  lemma {:induction false} TerminatedSnoc<T>(parts: seq<seq<T>>, part: seq<T>, x: T)
    ensures Terminated(parts + [part], x) == Terminated(parts, x) + part + [x]
  {
    if parts == [] {
      assert parts + [part] == [part];
    } else {
      assert (parts + [part])[1..] == parts[1..] + [part];
      TerminatedSnoc(parts[1..], part, x);
    }
  }

  /** Terminated pieces that do not contain the terminator split back into those pieces and a final empty one. */
  lemma {:induction false} SplitTerminated<T>(parts: seq<seq<T>>, x: T)
    requires forall i | 0 <= i < |parts| :: x !in parts[i]
    ensures Split(Terminated(parts, x), [x]) == parts + [[]]
  {
    if parts == [] {
      SplitEmpty([x]);
    } else {
      SplitTerminated(parts[1..], x);
      SplitAtElement(parts[0], x, Terminated(parts[1..], x));
      assert parts == [parts[0]] + parts[1..];
    }
  }

  /** The pieces with `sep` between consecutive ones (Rust's `join`). */
  function Join<T>(parts: seq<seq<T>>, sep: seq<T>): seq<T> {
    if |parts| == 0 then []
    else if |parts| == 1 then parts[0]
    else parts[0] + sep + Join(parts[1..], sep)
  }

  /** Splitting loses nothing: joining the pieces back gives the original. */
  lemma {:induction false} JoinSplit<T>(s: seq<T>, sep: seq<T>)
    requires |sep| > 0
    ensures Join(Split(s, sep), sep) == s
    decreases |s|
  {
    match SplitOnce(s, sep)
    case None =>
    case Some((head, tail)) =>
      JoinSplit(tail, sep);
      assert ([head] + Split(tail, sep))[1..] == Split(tail, sep);
  }

  /** No piece of a split contains the separator. */
  lemma {:induction false} SplitPiecesAvoidSeparator<T>(s: seq<T>, sep: seq<T>)
    requires |sep| > 0
    ensures forall p | p in Split(s, sep) :: !Contains(p, sep)
    decreases |s|
  {
    match SplitOnce(s, sep)
    case None =>
    case Some((head, tail)) =>
      SplitPiecesAvoidSeparator(tail, sep);
      assert head == s[..|head|];
      forall j | 0 <= j <= |head| ensures !OccursAt(head, sep, j) {
        OccursInPrefix(s, sep, |head|, j);
      }
  }

  // ------------------------------------------------------------ counting

  function Count<T(==)>(s: seq<T>, x: T): nat {
    if s == [] then 0 else (if s[0] == x then 1 else 0) + Count(s[1..], x)
  }

  lemma {:induction false} CountAppend<T>(a: seq<T>, b: seq<T>, x: T)
    ensures Count(a + b, x) == Count(a, x) + Count(b, x)
  {
    if a == [] {
      assert a + b == b;
    } else {
      assert (a + b)[1..] == a[1..] + b;
      CountAppend(a[1..], b, x);
    }
  }

  lemma {:induction false} CountAbsent<T>(s: seq<T>, x: T)
    ensures x !in s ==> Count(s, x) == 0
  {
    if s != [] {
      CountAbsent(s[1..], x);
    }
  }

  /** Splitting on one element yields one more piece than there are separators. */
  lemma {:induction false} SplitOnElementCount<T>(s: seq<T>, x: T)
    ensures |Split(s, [x])| == Count(s, x) + 1
    decreases |s|
  {
    match SplitOnce(s, [x])
    case None =>
      assert forall j | 0 <= j < |s| :: s[j..j + 1] == [s[j]];
      assert x !in s by {
        forall j | 0 <= j < |s| ensures s[j] != x {
          assert !OccursAt(s, [x], j);
        }
      }
      CountAbsent(s, x);
    case Some((head, tail)) =>
      SplitOnElementCount(tail, x);
      assert x !in head by {
        forall j | 0 <= j < |head| ensures head[j] != x {
          assert !OccursAt(s, [x], j);
          assert s[j..j + 1] == [head[j]];
        }
      }
      CountAbsent(head, x);
      CountAppend(head + [x], tail, x);
      CountAppend(head, [x], x);
  }

  // ------------------------------------------------------------ trimming

  /** Where the run of elements satisfying `p` that starts at `from` ends. */
  function SkipForward<T>(s: seq<T>, p: T -> bool, from: nat): (r: nat)
    requires from <= |s|
    ensures from <= r <= |s|
    ensures forall k | from <= k < r :: p(s[k])
    ensures r == |s| || !p(s[r])
    decreases |s| - from
  {
    if from < |s| && p(s[from]) then SkipForward(s, p, from + 1) else from
  }

  /** Where the run of elements satisfying `p` that ends at `high` starts, going no lower than `low`. */
  function SkipBackward<T>(s: seq<T>, p: T -> bool, low: nat, high: nat): (r: nat)
    requires low <= high <= |s|
    ensures low <= r <= high
    ensures forall k | r <= k < high :: p(s[k])
    ensures r == low || !p(s[r - 1])
    decreases high
  {
    if low < high && p(s[high - 1]) then SkipBackward(s, p, low, high - 1) else high
  }

  /** `trim_end_matches` with a predicate: drops the longest suffix whose elements satisfy `p`. */
  function TrimEndMatches<T>(s: seq<T>, p: T -> bool): (r: seq<T>)
    ensures |r| <= |s| && r == s[..|r|]
    ensures forall i | |r| <= i < |s| :: p(s[i])
    ensures r == [] || !p(r[|r| - 1])
  {
    s[..SkipBackward(s, p, 0, |s|)]
  }

  /** `s[i..j]` is what is left of `s` once a prefix and a suffix of elements satisfying `p` are dropped. */
  ghost predicate TrimmedTo<T>(s: seq<T>, p: T -> bool, i: int, j: int) {
    && 0 <= i <= j <= |s|
    && (forall k | 0 <= k < i :: p(s[k]))
    && (forall k | j <= k < |s| :: p(s[k]))
  }

  /**
   * `trim_matches` with a predicate: the slice of `s` left after dropping the
   * longest prefix and the longest suffix whose elements satisfy `p`.
   */
  function TrimMatches<T>(s: seq<T>, p: T -> bool): (r: seq<T>)
    ensures exists i, j :: TrimmedTo(s, p, i, j) && r == s[i..j]
    ensures r == [] || (!p(r[0]) && !p(r[|r| - 1]))
  {
    var i := SkipForward(s, p, 0);
    var j := SkipBackward(s, p, i, |s|);
    assert TrimmedTo(s, p, i, j);
    s[i..j]
  }

  /** Trimming only removes elements. */
  lemma TrimMatchesOmits<T>(s: seq<T>, p: T -> bool, x: T)
    requires x !in s
    ensures x !in TrimMatches(s, p)
  {
    var r := TrimMatches(s, p);
    assert exists i, j :: TrimmedTo(s, p, i, j) && r == s[i..j];
    var i, j :| TrimmedTo(s, p, i, j) && r == s[i..j];
    SliceOmits(s, i, j, x);
  }

  /** `char::is_whitespace`: the characters with the Unicode White_Space property. */
  predicate IsWhitespace(c: char) {
    || c == ' '
    || '\t' <= c <= '\r'
    || c == '\U{85}' || c == '\U{A0}' || c == '\U{1680}'
    || '\U{2000}' <= c <= '\U{200A}'
    || c == '\U{2028}' || c == '\U{2029}' || c == '\U{202F}' || c == '\U{205F}'
    || c == '\U{3000}'
  }

  /** `str::trim`, which is `trim_matches(char::is_whitespace)`. */
  function Trim(s: string): string {
    TrimMatches(s, IsWhitespace)
  }

  // ------------------------------------------------------------ fields

  /** The longest prefix of `s` none of whose elements is a separator. */
  function LeadingField<T>(s: seq<T>, sep: T -> bool): (r: seq<T>)
    ensures |r| <= |s| && r == s[..|r|]
    ensures forall i | 0 <= i < |r| :: !sep(r[i])
    ensures |r| == |s| || sep(s[|r|])
    decreases |s|
  {
    if s != [] && !sep(s[0]) then [s[0]] + LeadingField(s[1..], sep) else []
  }

  /** A non-empty run of elements none of which is a separator. */
  predicate IsField<T>(w: seq<T>, sep: T -> bool) {
    w != [] && forall i | 0 <= i < |w| :: !sep(w[i])
  }

  /**
   * `split(sep).filter(|f| !f.is_empty())`: the maximal runs of elements that
   * are not separators, in order.
   */
  function Fields<T>(s: seq<T>, sep: T -> bool): (r: seq<seq<T>>)
    ensures forall k | 0 <= k < |r| :: IsField(r[k], sep)
    decreases |s|
  {
    if s == [] then []
    else if sep(s[0]) then Fields(s[1..], sep)
    else
      var w := LeadingField(s, sep);
      assert w[0] == s[0];
      var rest := Fields(s[|w|..], sep);
      assert forall k | 1 <= k < |[w] + rest| :: ([w] + rest)[k] == rest[k - 1];
      [w] + rest
  }

  /** `str::split_whitespace`: the whitespace-separated words of `s`. */
  function Words(s: string): seq<string> {
    Fields(s, IsWhitespace)
  }

  /** `iter().map(f).collect()`. */
  function Map<A, B>(s: seq<A>, f: A -> B): (r: seq<B>)
    ensures |r| == |s|
    ensures forall i | 0 <= i < |s| :: r[i] == f(s[i])
  {
    seq(|s|, i requires 0 <= i < |s| => f(s[i]))
  }

  lemma MapSnoc<A, B>(s: seq<A>, i: nat, f: A -> B)
    requires i < |s|
    ensures Map(s[..i + 1], f) == Map(s[..i], f) + [f(s[i])]
  {
    var a := Map(s[..i + 1], f);
    var b := Map(s[..i], f) + [f(s[i])];
    forall k | 0 <= k < |a| ensures a[k] == b[k] {
      assert s[..i + 1][k] == s[k];
    }
  }

  function Flatten<T>(ss: seq<seq<T>>): seq<T> {
    if ss == [] then [] else ss[0] + Flatten(ss[1..])
  }

  /** The elements of `s` that satisfy `p`, in order. */
  function Filter<T>(s: seq<T>, p: T -> bool): seq<T> {
    if s == [] then [] else (if p(s[0]) then [s[0]] else []) + Filter(s[1..], p)
  }

  /** Filtering keeps only elements of `s` that satisfy `p`. */
  lemma {:induction false} FilterMembers<T>(s: seq<T>, p: T -> bool)
    ensures forall x | x in Filter(s, p) :: x in s && p(x)
  {
    if s != [] {
      FilterMembers(s[1..], p);
    }
  }

  lemma {:induction false} FilterAppend<T>(a: seq<T>, b: seq<T>, p: T -> bool)
    ensures Filter(a + b, p) == Filter(a, p) + Filter(b, p)
  {
    if a == [] {
      assert a + b == b;
    } else {
      var head := if p(a[0]) then [a[0]] else [];
      assert (a + b)[0] == a[0];
      assert (a + b)[1..] == a[1..] + b;
      FilterAppend(a[1..], b, p);
      calc {
        Filter(a + b, p);
        head + Filter(a[1..] + b, p);
        head + (Filter(a[1..], p) + Filter(b, p));
        (head + Filter(a[1..], p)) + Filter(b, p);
        Filter(a, p) + Filter(b, p);
      }
    }
  }

  lemma {:induction false} FilterKeepsAll<T>(s: seq<T>, p: T -> bool)
    requires forall i | 0 <= i < |s| :: p(s[i])
    ensures Filter(s, p) == s
  {
    if s != [] {
      FilterKeepsAll(s[1..], p);
    }
  }

  /** Splitting into fields drops exactly the separators: the fields, concatenated, are the other elements. */
  lemma {:induction false} FieldsKeepEveryOtherElement<T>(s: seq<T>, sep: T -> bool)
    ensures Flatten(Fields(s, sep)) == Filter(s, x => !sep(x))
    decreases |s|
  {
    var keep := x => !sep(x);
    if s != [] {
      if sep(s[0]) {
        FieldsKeepEveryOtherElement(s[1..], sep);
      } else {
        var w := LeadingField(s, sep);
        var rest := s[|w|..];
        assert s == w + rest;
        FilterAppend(w, rest, keep);
        FilterKeepsAll(w, keep);
        FieldsKeepEveryOtherElement(rest, sep);
        assert ([w] + Fields(rest, sep))[1..] == Fields(rest, sep);
      }
    }
  }

  /** Leading separators do not change the fields. */
  lemma {:induction false} FieldsSkipSeparators<T>(space: seq<T>, s: seq<T>, sep: T -> bool)
    requires forall i | 0 <= i < |space| :: sep(space[i])
    ensures Fields(space + s, sep) == Fields(s, sep)
  {
    if space == [] {
      assert space + s == s;
    } else {
      assert (space + s)[0] == space[0];
      assert (space + s)[1..] == space[1..] + s;
      FieldsSkipSeparators(space[1..], s, sep);
    }
  }

  lemma {:induction false} LeadingFieldOf<T>(w: seq<T>, rest: seq<T>, sep: T -> bool)
    requires forall i | 0 <= i < |w| :: !sep(w[i])
    requires rest == [] || sep(rest[0])
    ensures LeadingField(w + rest, sep) == w
  {
    if w == [] {
      assert w + rest == rest;
    } else {
      assert (w + rest)[0] == w[0];
      assert (w + rest)[1..] == w[1..] + rest;
      LeadingFieldOf(w[1..], rest, sep);
    }
  }

  /** A field followed by a separator (or by nothing) is the first field. */
  lemma FieldsStartWithField<T>(w: seq<T>, rest: seq<T>, sep: T -> bool)
    requires IsField(w, sep)
    requires rest == [] || sep(rest[0])
    ensures Fields(w + rest, sep) == [w] + Fields(rest, sep)
  {
    assert (w + rest)[0] == w[0];
    LeadingFieldOf(w, rest, sep);
    assert (w + rest)[|w|..] == rest;
  }

  /** A separator at the end does not change the leading field. */
  lemma {:induction false} LeadingFieldSnocSeparator<T>(s: seq<T>, c: T, sep: T -> bool)
    requires sep(c)
    ensures LeadingField(s + [c], sep) == LeadingField(s, sep)
    decreases |s|
  {
    if s == [] {
      assert ([] + [c])[0] == c;
    } else {
      assert (s + [c])[0] == s[0];
      assert (s + [c])[1..] == s[1..] + [c];
      if !sep(s[0]) {
        LeadingFieldSnocSeparator(s[1..], c, sep);
      }
    }
  }

  /** A separator at the end does not change the fields. */
  lemma {:induction false} FieldsSnocSeparator<T>(s: seq<T>, c: T, sep: T -> bool)
    requires sep(c)
    ensures Fields(s + [c], sep) == Fields(s, sep)
    decreases |s|
  {
    if s == [] {
      assert ([] + [c])[0] == c;
      assert ([] + [c])[1..] == [];
    } else {
      assert (s + [c])[0] == s[0];
      if sep(s[0]) {
        assert (s + [c])[1..] == s[1..] + [c];
        FieldsSnocSeparator(s[1..], c, sep);
      } else {
        var w := LeadingField(s, sep);
        LeadingFieldSnocSeparator(s, c, sep);
        assert (s + [c])[|w|..] == s[|w|..] + [c];
        FieldsSnocSeparator(s[|w|..], c, sep);
      }
    }
  }

  /** Separators alone have no fields. */
  lemma FieldsOfSeparators<T>(space: seq<T>, sep: T -> bool)
    requires forall i | 0 <= i < |space| :: sep(space[i])
    ensures Fields(space, sep) == []
  {
    FieldsSkipSeparators(space, [], sep);
    assert space + [] == space;
  }

  /** Separators around at most one field leave just that field, or none. */
  lemma FieldsOfOneRun<T>(lead: seq<T>, w: seq<T>, trail: seq<T>, sep: T -> bool)
    requires forall i | 0 <= i < |lead| :: sep(lead[i])
    requires forall i | 0 <= i < |trail| :: sep(trail[i])
    requires w == [] || IsField(w, sep)
    ensures Fields(lead + w + trail, sep) == if w == [] then [] else [w]
  {
    if w == [] {
      assert Fields(lead + w + trail, sep) == Fields(trail, sep) by {
        assert lead + w + trail == lead + trail;
        FieldsSkipSeparators(lead, trail, sep);
      }
    } else {
      assert Fields(lead + w + trail, sep) == Fields(w + trail, sep) by {
        assert lead + w + trail == lead + (w + trail);
        FieldsSkipSeparators(lead, w + trail, sep);
      }
      FieldsStartWithField(w, trail, sep);
    }
    FieldsOfSeparators(trail, sep);
  }

  // ------------------------------------------------------------ case folding

  /** ASCII `char::to_lowercase`: `A`..`Z` become `a`..`z`, everything else is unchanged. */
  function LowerChar(c: char): char {
    if 'A' <= c <= 'Z' then (c as int + 32) as char else c
  }

  function ToLower(s: string): (r: string)
    ensures |r| == |s|
    ensures forall i | 0 <= i < |s| :: r[i] == LowerChar(s[i])
  {
    seq(|s|, i requires 0 <= i < |s| => LowerChar(s[i]))
  }

  /** Two texts are equal ignoring case exactly when they agree character by character after folding. */
  lemma ToLowerEqual(a: string, b: string)
    ensures ToLower(a) == ToLower(b) <==> |a| == |b| && forall i | 0 <= i < |a| :: LowerChar(a[i]) == LowerChar(b[i])
  {
    if |a| == |b| && forall i | 0 <= i < |a| :: LowerChar(a[i]) == LowerChar(b[i]) {
      assert ToLower(a) == ToLower(b);
    }
  }

  // ------------------------------------------------------------ hexadecimal

  predicate IsLowerHexDigit(c: char) {
    '0' <= c <= '9' || 'a' <= c <= 'f'
  }

  function HexDigit(d: nat): (c: char)
    requires d < 16
    ensures IsLowerHexDigit(c)
  {
    if d < 10 then ('0' as int + d) as char else ('a' as int + d - 10) as char
  }

  function DigitValue(c: char): (d: nat)
    requires IsLowerHexDigit(c)
    ensures d < 16 && HexDigit(d) == c
  {
    if c <= '9' then c as int - '0' as int else c as int - 'a' as int + 10
  }

  /** `format!("{:x}", n)`: lower-case hexadecimal digits, most significant first, without padding. */
  function LowerHex(n: nat): (r: string)
    ensures |r| >= 1
    ensures forall i | 0 <= i < |r| :: IsLowerHexDigit(r[i])
    ensures r[0] == '0' <==> n == 0
    ensures n == 0 ==> r == "0"
    decreases n
  {
    if n < 16 then [HexDigit(n)] else LowerHex(n / 16) + [HexDigit(n % 16)]
  }

  /** The number a string of lower-case hexadecimal digits denotes. */
  function HexValue(s: string): nat
    requires forall i | 0 <= i < |s| :: IsLowerHexDigit(s[i])
  {
    if s == [] then 0 else 16 * HexValue(s[..|s| - 1]) + DigitValue(s[|s| - 1])
  }

  /** The digits `{:x}` prints denote the number printed. */
  lemma {:induction false} LowerHexRoundTrip(n: nat)
    ensures HexValue(LowerHex(n)) == n
    decreases n
  {
    var r := LowerHex(n);
    if n < 16 {
      assert r[..0] == [];
      assert DigitValue(HexDigit(n)) == n;
    } else {
      LowerHexRoundTrip(n / 16);
      assert r[..|r| - 1] == LowerHex(n / 16);
      assert DigitValue(HexDigit(n % 16)) == n % 16;
    }
  }
}
