/**
 * The JavaScript string operations the codemod relies on: `indexOf`,
 * `split` with a string separator, `join`, `replace` with a string pattern
 * and `startsWith` (which is Dafny's prefix relation `<=` on sequences).
 */
module JsStrings {
  import opened Wrappers

  /** `pat` occurs in `s` starting at index `i`. */
  predicate OccursAt(s: string, pat: string, i: nat) {
    i + |pat| <= |s| && s[i..i + |pat|] == pat
  }

  /** `s.indexOf(pat, from)`: the first occurrence of `pat` at or after `from`. */
  function IndexFrom(s: string, pat: string, from: nat): (r: Option<nat>)
    requires from <= |s|
    ensures r.Some? ==> from <= r.value <= |s| && OccursAt(s, pat, r.value)
    ensures r.Some? ==> forall j: nat :: from <= j < r.value ==> !OccursAt(s, pat, j)
    ensures r.None? ==> forall j: nat :: from <= j ==> !OccursAt(s, pat, j)
    decreases |s| - from
  {
    if OccursAt(s, pat, from) then Some(from)
    else if from == |s| then None
    else IndexFrom(s, pat, from + 1)
  }

  /** `s.indexOf(pat)`, with `None` standing for -1. */
  function IndexOf(s: string, pat: string): (r: Option<nat>)
    ensures r.Some? ==> r.value <= |s| && OccursAt(s, pat, r.value)
    ensures r.Some? ==> forall j: nat :: j < r.value ==> !OccursAt(s, pat, j)
    ensures r.None? ==> forall j: nat :: !OccursAt(s, pat, j)
  {
    IndexFrom(s, pat, 0)
  }

  /** `s.split(sep)` for a non-empty string separator and no limit. */
  function Split(s: string, sep: string): (pieces: seq<string>)
    requires |sep| > 0
    ensures |pieces| >= 1
    decreases |s|
  {
    match IndexOf(s, sep)
    case None => [s]
    case Some(i) => [s[..i]] + Split(s[i + |sep|..], sep)
  }

  /** `pieces.join(sep)`. */
  function Join(pieces: seq<string>, sep: string): string {
    if |pieces| == 0 then ""
    else if |pieces| == 1 then pieces[0]
    else pieces[0] + sep + Join(pieces[1..], sep)
  }

  /** `s.replace(pat, rep)` with a string pattern: only the first occurrence is replaced. */
  function ReplaceFirst(s: string, pat: string, rep: string): string {
    match IndexOf(s, pat)
    case None => s
    case Some(i) => s[..i] + rep + s[i + |pat|..]
  }

  /** An occurrence inside a prefix of `s` is an occurrence in `s`. */
  lemma OccursInPrefix(s: string, n: nat, pat: string, j: nat)
    requires n <= |s| && OccursAt(s[..n], pat, j)
    ensures OccursAt(s, pat, j)
  {
    assert s[..n][j..j + |pat|] == s[j..j + |pat|];
  }

  /** Joining the pieces of a split gives back the original string. */
  lemma {:induction false} SplitJoin(s: string, sep: string)
    requires |sep| > 0
    ensures Join(Split(s, sep), sep) == s
    decreases |s|
  {
    match IndexOf(s, sep)
    case None =>
    case Some(i) =>
      var rest := s[i + |sep|..];
      var tail := Split(rest, sep);
      SplitJoin(rest, sep);
      var pieces := [s[..i]] + tail;
      assert Split(s, sep) == pieces;
      assert pieces[1..] == tail;
      assert |pieces| >= 2;
      JoinCons(s[..i], tail, sep);
      assert OccursAt(s, sep, i);
      SplitAround(s, i, sep);
  }

  lemma JoinCons(head: string, tail: seq<string>, sep: string)
    requires |tail| >= 1
    ensures Join([head] + tail, sep) == head + sep + Join(tail, sep)
  {
    assert ([head] + tail)[1..] == tail;
  }

  lemma SplitAround(s: string, i: nat, sep: string)
    requires OccursAt(s, sep, i)
    ensures s == s[..i] + sep + s[i + |sep|..]
  {
    assert s == s[..i] + s[i..i + |sep|] + s[i + |sep|..];
  }

  /** No piece of a split contains the separator. */
  lemma {:induction false} SplitPiecesFree(s: string, sep: string, k: nat)
    requires |sep| > 0 && k < |Split(s, sep)|
    ensures IndexOf(Split(s, sep)[k], sep).None?
    decreases |s|
  {
    match IndexOf(s, sep)
    case None =>
    case Some(i) =>
      if k == 0 {
        var piece := s[..i];
        assert Split(s, sep)[0] == piece;
        forall j: nat ensures !OccursAt(piece, sep, j) {
          if OccursAt(piece, sep, j) {
            OccursInPrefix(s, i, sep, j);
          }
        }
      } else {
        SplitPiecesFree(s[i + |sep|..], sep, k - 1);
      }
  }

  /**
   * Where `split` cuts: the first piece is a prefix of the string with no
   * separator starting inside it; it is the whole string when there is no
   * separator at all, and otherwise a separator follows it and the other
   * pieces are the split of what comes after that separator.
   */
  lemma SplitCuts(s: string, sep: string)
    requires |sep| > 0
    ensures Split(s, sep)[0] <= s
    ensures forall j: nat :: j < |Split(s, sep)[0]| ==> !OccursAt(s, sep, j)
    ensures |Split(s, sep)| == 1 ==> Split(s, sep)[0] == s && forall j: nat :: !OccursAt(s, sep, j)
    ensures |Split(s, sep)| > 1 ==> OccursAt(s, sep, |Split(s, sep)[0]|)
    ensures |Split(s, sep)| > 1 ==>
      Split(s, sep)[1..] == Split(s[|Split(s, sep)[0]| + |sep|..], sep)
  {
    match IndexOf(s, sep)
    case None =>
    case Some(i) =>
      assert Split(s, sep)[0] == s[..i];
      assert |Split(s, sep)| > 1;
  }

  /** When `pat` occurs first right after `a`, `replace` swaps exactly that occurrence for `rep`. */
  lemma ReplaceFirstAt(a: string, pat: string, b: string, rep: string)
    requires forall j: nat :: j < |a| ==> !OccursAt(a + pat + b, pat, j)
    ensures ReplaceFirst(a + pat + b, pat, rep) == a + rep + b
  {
    var s := a + pat + b;
    assert s[|a|..|a| + |pat|] == pat;
    assert OccursAt(s, pat, |a|);
    assert IndexOf(s, pat) == Some(|a|);
    assert s[..|a|] == a && s[|a| + |pat|..] == b;
  }

  /** Without an occurrence, `replace` returns the string unchanged. */
  lemma ReplaceFirstAbsent(s: string, pat: string, rep: string)
    requires forall j: nat :: !OccursAt(s, pat, j)
    ensures ReplaceFirst(s, pat, rep) == s
  {
  }
}
