// What several modules need: a value that may be missing, word and page sizes, and facts about sequences and sets.
//
// Some contracts and invariants in the project say `P(x) == true` where `P(x)` would mean the same. A predicate that stands
// alone is unfolded wherever it is asserted; compared with `true` it stays one fact under its name, to be opened only where
// its definition is needed. The long proofs about buffers, trees and threads depend on that to stay short.
module Common {
  datatype Option<+T> = None | Some(value: T)

  /** A page in bytes. */
  const PAGE_SIZE := 4096

  /** 32-bit counters wrap around here. */
  const WORD := 0x1_0000_0000

  // ---------------------------------------------------------------------------
  // Sequences
  // ---------------------------------------------------------------------------

  predicate Distinct<T(==)>(s: seq<T>) {
    forall i, j :: 0 <= i < j < |s| ==> s[i] != s[j]
  }

  lemma AppendAssoc<T>(a: seq<T>, b: seq<T>, c: seq<T>)
    ensures a + (b + c) == a + b + c
  {
  }

  lemma AppendNothing<T>(a: seq<T>)
    ensures a + [] == a && [] + a == a
  {
  }

  lemma SplitAt<T>(s: seq<T>, i: nat)
    requires i <= |s|
    ensures s[..i] + s[i..] == s
  {
  }

  lemma SplitAround<T>(s: seq<T>, i: nat)
    requires i < |s|
    ensures s == s[..i] + [s[i]] + s[i + 1..]
  {
  }

  lemma DropHead<T>(s: seq<T>, i: nat)
    requires i < |s|
    ensures s[i..][0] == s[i] && s[i..][1..] == s[i + 1..]
  {
  }

  lemma TailAppend<T>(a: seq<T>, b: seq<T>)
    requires a != []
    ensures (a + b)[0] == a[0] && (a + b)[1..] == a[1..] + b
  {
  }

  lemma OneTail<T>(x: T)
    ensures [x][0] == x && [x][1..] == []
  {
  }

  lemma TakeAll<T>(s: seq<T>)
    ensures s[..|s|] == s && s[0..|s|] == s
  {
  }

  lemma SliceFrom<T>(s: seq<T>, a: nat, n: nat)
    requires a <= n == |s|
    ensures s[a..n] == s[a..]
  {
  }

  lemma SliceTo<T>(s: seq<T>, b: nat)
    requires b <= |s|
    ensures s[0..b] == s[..b]
  {
  }

  lemma TakeTake<T>(s: seq<T>, i: nat, j: nat)
    requires i <= j <= |s|
    ensures s[..j][..i] == s[..i]
  {
  }

  lemma UpdateIs<T>(s: seq<T>, i: nat, x: T)
    requires i < |s|
    ensures s[i := x] == s[..i] + [x] + s[i + 1..]
  {
  }

  // ---------------------------------------------------------------------------
  // Sets
  // ---------------------------------------------------------------------------

  lemma {:induction false} SubsetSize<T>(a: set<T>, b: set<T>)
    requires a <= b
    ensures |a| <= |b|
    decreases |a|
  {
    if a != {} {
      var x :| x in a;
      SubsetSize(a - {x}, b - {x});
    }
  }
}
