/** Facts about sequence slicing and concatenation, stated once for any
    element type so that the proofs using them never have to compare two
    sequences element by element themselves. */
module Seqs {

  lemma EmptyAppend<T>(b: seq<T>)
    ensures [] + b == b
  {
  }

  lemma AppendEmpty<T>(s: seq<T>)
    ensures s + [] == s
  {
  }

  lemma AppendAssoc<T>(a: seq<T>, b: seq<T>, c: seq<T>)
    ensures (a + b) + c == a + (b + c)
  {
  }

  /** The head and the tail of a concatenation with a non-empty left part. */
  lemma ConsTail<T>(a: seq<T>, b: seq<T>)
    requires a != []
    ensures (a + b)[0] == a[0] && (a + b)[1..] == a[1..] + b
  {
  }

  /** All but the last of a concatenation with a non-empty right part. */
  lemma InitAppend<T>(a: seq<T>, b: seq<T>)
    requires b != []
    ensures (a + b)[..|a + b| - 1] == a + b[..|b| - 1]
  {
  }

  lemma SingletonCons<T>(x: T, b: seq<T>)
    ensures ([x] + b)[0] == x && ([x] + b)[1..] == b
  {
  }

  lemma HeadTail<T>(s: seq<T>)
    requires s != []
    ensures s == [s[0]] + s[1..]
  {
  }

  lemma SingletonTail<T>(x: T)
    ensures [x][1..] == []
  {
  }

  lemma TripleTails<T>(a: T, b: T, c: T)
    ensures [a, b, c][1..] == [b, c] && [b, c][1..] == [c]
  {
  }

  lemma QuadTails<T>(a: T, b: T, c: T, d: T)
    ensures [a, b, c, d][1..] == [b, c, d]
  {
  }

  lemma PairOfSingletons<T>(a: T, b: T)
    ensures [a] + [b] == [a, b]
  {
  }

  lemma ConsPair<T>(a: T, b: T, c: T)
    ensures [a] + [b, c] == [a, b, c]
  {
  }

  lemma ThreeOfSingletons<T>(a: T, b: T, c: T)
    ensures [a] + ([b] + [c]) == [a, b, c]
  {
  }

  lemma ConsFour<T>(w: T, x: T, y: T, z: T)
    ensures [w] + [x, y, z] == [w, x, y, z]
  {
  }

  lemma ConcatSix<T>(x: seq<T>, a: seq<T>, y: seq<T>, b: seq<T>, z: seq<T>, c: seq<T>)
    ensures x + a + y + b + z + c == x + (a + y + (b + z + c))
  {
  }

  /** A sequence cut around one element, and the parts read back. */
  lemma AroundSeparator<T>(x: seq<T>, sep: T, rest: seq<T>)
    ensures var s := x + [sep] + rest;
            && |s| == |x| + 1 + |rest|
            && s[|x|] == sep
            && s[..|x|] == x
            && s[|x| + 1..] == rest
            && (forall i :: 0 <= i < |x| ==> s[i] == x[i])
  {
  }

  lemma Reassemble<T>(s: seq<T>, k: nat)
    requires k < |s|
    ensures s == s[..k] + [s[k]] + s[k + 1..]
  {
  }

  lemma TakeAll<T>(s: seq<T>)
    ensures s[..|s|] == s
  {
  }

  lemma TakeIndex<T>(a: seq<T>, i: nat)
    requires i < |a|
    ensures a[..i + 1][i] == a[i]
  {
  }

  lemma TakeSnoc<T>(a: seq<T>, x: T)
    ensures (a + [x])[..|a|] == a && (a + [x])[|a|] == x
  {
  }

  /** One more element of a prefix. */
  lemma TakeNext<T>(s: seq<T>, i: nat)
    requires i < |s|
    ensures s[..i + 1] == s[..i] + [s[i]]
  {
  }

  lemma PrefixOfPrefix<T>(s: seq<T>, m: nat, k: nat)
    requires k <= m <= |s|
    ensures s[..m][..k] == s[..k]
  {
  }

  /** Every element of the shorter prefix is the one in the sequence. */
  lemma InitIndex<T>(s: seq<T>)
    requires s != []
    ensures forall i :: 0 <= i < |s| - 1 ==> s[..|s| - 1][i] == s[i]
  {
  }

  lemma DropSnoc<T>(s: seq<T>, j: nat)
    requires j < |s|
    ensures s[j..] == s[..|s| - 1][j..] + [s[|s| - 1]]
  {
  }

  lemma SliceSplit<T>(s: seq<T>, a: nat, b: nat)
    requires a <= b <= |s|
    ensures s[..b] == s[..a] + s[a..b]
  {
  }

  /** A prefix of a suffix is a slice. */
  lemma SliceOfSuffix<T>(s: seq<T>, i: nat, n: nat)
    requires i + n <= |s|
    ensures s[i..][..n] == s[i..i + n]
    ensures forall k :: i <= k < |s| ==> s[i..][k - i] == s[k]
  {
  }

  lemma SliceIndex<T>(s: seq<T>, i: nat, j: nat)
    requires i <= j <= |s|
    ensures forall k :: 0 <= k < j - i ==> s[i..j][k] == s[i + k]
  {
  }

  /** Whatever a slice holds, the sequence holds. */
  lemma SliceMembers<T>(s: seq<T>, i: nat, j: nat)
    requires i <= j <= |s|
    ensures forall x :: x in s[i..j] ==> x in s
  {
    forall x | x in s[i..j]
      ensures x in s
    {
      var k :| 0 <= k < j - i && s[i..j][k] == x;
      assert s[i + k] == x;
    }
  }

  lemma PrefixMembers<T>(s: seq<T>, k: nat)
    requires k <= |s|
    ensures forall x :: x in s[..k] ==> x in s
  {
    forall x | x in s[..k]
      ensures x in s
    {
      var i :| 0 <= i < k && s[..k][i] == x;
      assert s[i] == x;
    }
  }

  /** An element is in the part before a cut or in the part after it. */
  lemma InPrefixOrSuffix<T>(s: seq<T>, k: nat, x: T)
    requires k <= |s| && x in s
    ensures x in s[..k] || x in s[k..]
  {
    var j :| 0 <= j < |s| && s[j] == x;
    if j < k {
      assert s[..k][j] == x;
    } else {
      assert s[k..][j - k] == x;
    }
  }

  /** Replacing the next element of a sequence whose prefix was already
      replaced. */
  lemma ReplaceNext<T>(cur: seq<T>, before: seq<T>, orig: seq<T>, i: nat, u: T)
    requires i < |orig| && cur == before + orig[i..] && |before| == i
    ensures cur[i := u] == (before + [u]) + orig[i + 1..]
    ensures cur[i := u][..i + 1] == before + [u]
  {
    assert cur[i := u] == (before + [u]) + orig[i + 1..];
  }

  /** An element absent from every part is absent from their concatenation. */
  lemma NotInParts<T>(a: seq<T>, b: seq<T>, c: seq<T>, d: seq<T>, e: seq<T>, x: T)
    requires x !in a && x !in b && x !in c && x !in d && x !in e
    ensures x !in a + b + c + d + e
  {
  }
}
