/** Types and small text functions shared by every module. */
module Prelude {
  datatype Option<+T> = None | Some(value: T)

  datatype Result<+T, +E> = Ok(value: T) | Err(error: E)

  type Byte = b: int | 0 <= b < 256

  const I64_MAX: int := 0x7FFF_FFFF_FFFF_FFFF
  const U64_MAX: int := 0xFFFF_FFFF_FFFF_FFFF

  function LowerChar(c: char): char {
    if 'A' <= c <= 'Z' then (c as int + 32) as char else c
  }

  /** ASCII lower-casing, the fold every address comparison uses. */
  function Lower(s: string): (r: string)
    ensures |r| == |s|
    ensures forall i :: 0 <= i < |s| ==> r[i] == LowerChar(s[i])
  {
    if s == [] then [] else [LowerChar(s[0])] + Lower(s[1..])
  }

  predicate EqFold(a: string, b: string) {
    Lower(a) == Lower(b)
  }

  lemma LowerIdempotent(s: string)
    ensures Lower(Lower(s)) == Lower(s)
  {
  }

  /** One letter in two cases, or one character. */
  predicate SameLetter(c: char, d: char) {
    || c == d
    || ('A' <= c <= 'Z' && 'a' <= d <= 'z' && c as int - 'A' as int == d as int - 'a' as int)
    || ('a' <= c <= 'z' && 'A' <= d <= 'Z' && c as int - 'a' as int == d as int - 'A' as int)
  }

  /** Folding identifies the two cases of the 26 ASCII letters and nothing else, and leaves no capital. */
  lemma FoldMeans(a: string, b: string)
    ensures EqFold(a, b) <==> |a| == |b| && forall i :: 0 <= i < |a| ==> SameLetter(a[i], b[i])
    ensures forall i :: 0 <= i < |a| ==> !('A' <= Lower(a)[i] <= 'Z')
  {
    if |a| == |b| {
      forall i | 0 <= i < |a| ensures Lower(a)[i] == Lower(b)[i] <==> SameLetter(a[i], b[i]) {
        LetterFolds(a[i], b[i]);
      }
      hide SameLetter, LowerChar;
      if forall i :: 0 <= i < |a| ==> SameLetter(a[i], b[i]) {
        assert forall i :: 0 <= i < |a| ==> Lower(a)[i] == Lower(b)[i];
      }
    }
  }

  lemma LetterFolds(c: char, d: char)
    ensures LowerChar(c) == LowerChar(d) <==> SameLetter(c, d)
  {
  }

  /** Postgres text and the id types both refuse the NUL character. */
  predicate HasNul(s: string) {
    '\0' in s
  }

  lemma LowerKeepsNul(s: string)
    ensures HasNul(Lower(s)) <==> HasNul(s)
  {
    forall i | 0 <= i < |s| ensures (Lower(s)[i] == '\0') <==> (s[i] == '\0') {
    }
    if HasNul(s) {
      var i :| 0 <= i < |s| && s[i] == '\0';
      assert Lower(s)[i] == '\0';
    }
  }

  function Filter<T(!new)>(keep: T -> bool, xs: seq<T>): (r: seq<T>)
    ensures forall x :: x in r <==> x in xs && keep(x)
    ensures |r| <= |xs|
  {
    if xs == [] then []
    else if keep(xs[0]) then [xs[0]] + Filter(keep, xs[1..])
    else Filter(keep, xs[1..])
  }

  /** Filtering keeps order and repetitions. */
  lemma {:induction false} FilterIsPiecewise<T(!new)>(keep: T -> bool, xs: seq<T>, ys: seq<T>)
    ensures Filter(keep, xs + ys) == Filter(keep, xs) + Filter(keep, ys)
    ensures xs != [] ==> Filter(keep, [xs[0]]) == if keep(xs[0]) then [xs[0]] else []
  {
    if xs == [] {
      assert xs + ys == ys;
    } else {
      assert (xs + ys)[0] == xs[0] && (xs + ys)[1..] == xs[1..] + ys;
      FilterIsPiecewise(keep, xs[1..], ys);
    }
  }

  /** Split at the last occurrence of a character, as `rsplit_once` does. */
  function SplitLast<T(==)>(s: seq<T>, c: T): (r: Option<(seq<T>, seq<T>)>)
    ensures r.None? <==> c !in s
    ensures r.Some? ==> s == r.value.0 + [c] + r.value.1 && c !in r.value.1
  {
    if s == [] then None
    else
      var n := |s| - 1;
      if s[n] == c then Some((s[..n], []))
      else
        var r := SplitLast(s[..n], c);
        if r.None? then None else Some((r.value.0, r.value.1 + [s[n]]))
  }

  lemma {:induction false} SplitLastIsUnique<T>(s: seq<T>, c: T, head: seq<T>, tail: seq<T>)
    requires s == head + [c] + tail && c !in tail
    ensures SplitLast(s, c) == Some((head, tail))
  {
    var n := |s| - 1;
    if tail == [] {
      assert s[n] == c && s[..n] == head;
    } else {
      var m := |tail| - 1;
      assert s[n] == tail[m] && tail == tail[..m] + [tail[m]];
      assert s[..n] == head + [c] + tail[..m];
      SplitLastIsUnique(s[..n], c, head, tail[..m]);
    }
  }

  lemma SubsetSize<T>(a: set<T>, b: set<T>)
    requires a <= b
    ensures |a| <= |b|
  {
    assert b == a + (b - a);
  }
}
