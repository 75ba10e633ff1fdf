/** String operations with the semantics of the Python `str` and `os.path`
    calls the backend relies on: `str.strip()`, `str.split(',')`,
    `str.replace(c, '')`, `os.path.basename` (POSIX) and SQLite's BINARY
    comparison of TEXT values. */
module Text {
  import opened Seqs

  /** The characters for which Python's `str.isspace()` holds; `str.strip()`
      with no argument removes exactly these from both ends. */
  predicate IsSpace(c: char) {
    || c == ' '
    || ('\t' <= c <= '\r')
    || ('\U{1c}' <= c <= '\U{1f}')
    || c == '\U{85}' || c == '\U{a0}' || c == '\U{1680}'
    || ('\U{2000}' <= c <= '\U{200a}')
    || c == '\U{2028}' || c == '\U{2029}' || c == '\U{202f}' || c == '\U{205f}' || c == '\U{3000}'
  }

  /** No whitespace at either end: what `str.strip()` leaves behind. */
  predicate Trimmed(s: string) {
    s == [] || (!IsSpace(s[0]) && !IsSpace(s[|s| - 1]))
  }

  /** `str.lstrip()`: the suffix left after dropping leading whitespace. */
  function LStrip(s: string): (r: string)
    ensures |r| <= |s| && r == s[|s| - |r|..]
    ensures r == [] || !IsSpace(r[0])
    ensures forall i :: 0 <= i < |s| - |r| ==> IsSpace(s[i])
  {
    if s != [] && IsSpace(s[0]) then LStrip(s[1..]) else s
  }

  /** `str.rstrip()`: the prefix left after dropping trailing whitespace. */
  function RStrip(s: string): (r: string)
    ensures |r| <= |s| && r == s[..|r|]
    ensures r == [] || !IsSpace(r[|r| - 1])
    ensures forall i :: |r| <= i < |s| ==> IsSpace(s[i])
  {
    if s != [] && IsSpace(s[|s| - 1]) then RStrip(s[..|s| - 1]) else s
  }

  /** `str.strip()`. */
  function Strip(s: string): (r: string)
    ensures Trimmed(r)
  {
    var l := LStrip(s);
    assert RStrip(l) == [] || RStrip(l)[0] == l[0];
    RStrip(l)
  }

  /** What strip keeps: a contiguous slice of the input with no outer
      whitespace, everything cut away on either side being whitespace. */
  lemma StripSlice(s: string)
    ensures exists i, j :: 0 <= i <= j <= |s| && Strip(s) == s[i..j]
                           && (forall k :: 0 <= k < i ==> IsSpace(s[k]))
                           && (forall k :: j <= k < |s| ==> IsSpace(s[k]))
  {
    var l := LStrip(s);
    var i := |s| - |l|;
    var r := RStrip(l);
    var j := i + |r|;
    assert Strip(s) == r;
    SliceOfSuffix(s, i, |r|);
  }

  /** Every character strip keeps comes from the input. */
  lemma StripMembers(s: string)
    ensures forall c :: c in Strip(s) ==> c in s
  {
    StripSlice(s);
    var i, j :| 0 <= i <= j <= |s| && Strip(s) == s[i..j];
    SliceMembers(s, i, j);
  }

  /** What holds of every character of the input holds of every character
      strip keeps. */
  lemma StripKeeps(s: string, p: char -> bool)
    requires forall k :: 0 <= k < |s| ==> p(s[k])
    ensures forall k :: 0 <= k < |Strip(s)| ==> p(Strip(s)[k])
  {
    StripSlice(s);
    var i, j :| 0 <= i <= j <= |s| && Strip(s) == s[i..j];
    SliceIndex(s, i, j);
  }

  /** Strip leaves an already trimmed string alone. */
  lemma StripTrimmed(s: string)
    requires Trimmed(s)
    ensures Strip(s) == s
  {
  }

  /** Whitespace before a string that does not start with whitespace is
      exactly what `lstrip` removes. */
  lemma {:induction false} LStripPadding(pad: string, s: string)
    requires forall i :: 0 <= i < |pad| ==> IsSpace(pad[i])
    requires s == [] || !IsSpace(s[0])
    ensures LStrip(pad + s) == s
  {
    if pad != [] {
      ConsTail(pad, s);
      LStripPadding(pad[1..], s);
    } else {
      assert pad + s == s;
    }
  }

  /** Whitespace after a string that does not end with whitespace is
      exactly what `rstrip` removes. */
  lemma {:induction false} RStripPadding(s: string, pad: string)
    requires forall i :: 0 <= i < |pad| ==> IsSpace(pad[i])
    requires s == [] || !IsSpace(s[|s| - 1])
    ensures RStrip(s + pad) == s
  {
    if pad != [] {
      InitAppend(s, pad);
      RStripPadding(s, pad[..|pad| - 1]);
    } else {
      assert s + pad == s;
    }
  }

  /** Stripping a padded, non-empty trimmed string gives the string back. */
  lemma StripPadding(left: string, s: string, right: string)
    requires forall i :: 0 <= i < |left| ==> IsSpace(left[i])
    requires forall i :: 0 <= i < |right| ==> IsSpace(right[i])
    requires s != "" && Trimmed(s)
    ensures Strip(left + s + right) == s
  {
    assert left + s + right == left + (s + right);
    LStripPadding(left, s + right);
    RStripPadding(s, right);
  }

  /** A string made only of whitespace strips to the empty string. */
  lemma {:induction false} StripAllSpace(s: string)
    requires forall i :: 0 <= i < |s| ==> IsSpace(s[i])
    ensures Strip(s) == ""
  {
    if s != [] {
      StripAllSpace(s[1..]);
    }
  }

  /** Python `c in s` for a single character, as a first index. */
  function IndexOf(s: string, c: char): (k: nat)
    requires c in s
    ensures k < |s| && s[k] == c && c !in s[..k]
  {
    if s[0] == c then 0 else 1 + IndexOf(s[1..], c)
  }

  /** `s.split(sep)` for a one-character separator: the maximal runs
      between separators, always at least one piece. */
  function Split(s: string, sep: char): (r: seq<string>)
    ensures |r| >= 1
    ensures forall i :: 0 <= i < |r| ==> sep !in r[i]
    decreases |s|
  {
    if sep !in s then [s]
    else
      var k := IndexOf(s, sep);
      [s[..k]] + Split(s[k + 1..], sep)
  }

  /** `sep.join(parts)`. */
  function Join(parts: seq<string>, sep: char): string {
    if parts == [] then ""
    else if |parts| == 1 then parts[0]
    else parts[0] + [sep] + Join(parts[1..], sep)
  }

  /** Joining the pieces of a split gives back the original text. */
  lemma {:induction false} JoinSplit(s: string, sep: char)
    ensures Join(Split(s, sep), sep) == s
    decreases |s|
  {
    if sep in s {
      var k := IndexOf(s, sep);
      JoinSplit(s[k + 1..], sep);
      Reassemble(s, k);
    }
  }

  /** The first occurrence is the one with no occurrence before it. */
  lemma {:induction false} IndexOfFirst(s: string, c: char, k: nat)
    requires k < |s| && s[k] == c
    requires forall i :: 0 <= i < k ==> s[i] != c
    ensures IndexOf(s, c) == k
  {
    if k > 0 {
      IndexOfFirst(s[1..], c, k - 1);
    }
  }

  /** Splitting a join of separator-free pieces gives back the pieces. */
  lemma {:induction false} SplitJoin(parts: seq<string>, sep: char)
    requires |parts| >= 1
    requires forall i :: 0 <= i < |parts| ==> sep !in parts[i]
    ensures Split(Join(parts, sep), sep) == parts
  {
    if |parts| > 1 {
      var s := Join(parts, sep);
      var n := |parts[0]|;
      SplitCons(parts[0], Join(parts[1..], sep), sep);
      SplitJoin(parts[1..], sep);
      Reassemble(parts, 0);
    }
  }

  /** A text whose first piece has no separator splits into that piece
      and the split of the rest. */
  lemma SplitCons(x: string, rest: string, sep: char)
    requires sep !in x
    ensures Split(x + [sep] + rest, sep) == [x] + Split(rest, sep)
  {
    var s := x + [sep] + rest;
    AroundSeparator(x, sep, rest);
    IndexOfFirst(s, sep, |x|);
  }

  /** A text starting with the separator splits into an empty first piece
      and the split of the rest. */
  lemma SplitLeadingSep(rest: string, sep: char)
    ensures Split([sep] + rest, sep) == [""] + Split(rest, sep)
  {
    SplitCons("", rest, sep);
    EmptyAppend([sep]);
  }

  /** Where the last path component starts: just after the last '/', or 0. */
  function ComponentStart(p: string): (k: nat)
    ensures k <= |p|
    ensures forall i :: k <= i < |p| ==> p[i] != '/'
    ensures k > 0 ==> p[k - 1] == '/'
  {
    if p == [] then 0
    else if p[|p| - 1] == '/' then |p|
    else ComponentStart(p[..|p| - 1])
  }

  /** POSIX `os.path.basename`: the text after the last '/'. */
  function Basename(p: string): (r: string)
    ensures '/' !in r
  {
    p[ComponentStart(p)..]
  }

  /** A basename is its own basename. */
  lemma BasenameOfBasename(p: string)
    ensures Basename(Basename(p)) == Basename(p)
  {
    var b := Basename(p);
    BasenameNoSlash(b);
  }

  /** A name without '/' is its own basename. */
  lemma {:induction false} BasenameNoSlash(n: string)
    requires '/' !in n
    ensures Basename(n) == n
  {
    assert forall i :: 0 <= i < |n| ==> n[i] in n && n[i] != '/';
  }

  /** Joining a directory and a '/'-free name, then taking the basename,
      gives back the name: a saved file lands directly in the directory. */
  lemma BasenameOfJoin(dir: string, name: string)
    requires '/' !in name
    ensures Basename(dir + "/" + name) == name
  {
    var p := dir + "/" + name;
    var k := ComponentStart(p);
    assert p[|dir|] == '/';
    assert forall i :: |dir| < i < |p| ==> p[i] == name[i - |dir| - 1] && p[i] != '/';
    assert k == |dir| + 1;
  }

  /** The characters of `s` for which `keep` holds, in their original order. */
  function Filter(s: string, keep: char -> bool): (r: string)
    ensures |r| <= |s|
    ensures forall i :: 0 <= i < |r| ==> keep(r[i])
    ensures forall i :: 0 <= i < |r| ==> r[i] in s
  {
    if s == [] then [] else (if keep(s[0]) then [s[0]] else []) + Filter(s[1..], keep)
  }

  /** Filtering distributes over concatenation, so the relative order of the
      kept characters is the order they had in the input. */
  lemma {:induction false} FilterAppend(a: string, b: string, keep: char -> bool)
    ensures Filter(a + b, keep) == Filter(a, keep) + Filter(b, keep)
  {
    if a != [] {
      ConsTail(a, b);
      FilterAppend(a[1..], b, keep);
      AppendAssoc(if keep(a[0]) then [a[0]] else [], Filter(a[1..], keep), Filter(b, keep));
    } else {
      EmptyAppend(b);
    }
  }

  /** A string all of whose characters are kept is unchanged by the filter. */
  lemma {:induction false} FilterAllKept(s: string, keep: char -> bool)
    requires forall i :: 0 <= i < |s| ==> keep(s[i])
    ensures Filter(s, keep) == s
  {
    if s != [] {
      FilterAllKept(s[1..], keep);
    }
  }

  /** `s` with every character of `bad` removed, the rest kept in order. */
  function Without(s: string, bad: set<char>): (r: string)
    ensures |r| <= |s|
    ensures forall i :: 0 <= i < |r| ==> r[i] !in bad && r[i] in s
  {
    if s == [] then [] else (if s[0] in bad then [] else [s[0]]) + Without(s[1..], bad)
  }

  /** Characters outside `bad` survive: a string free of them is unchanged. */
  lemma {:induction false} WithoutNoneBad(s: string, bad: set<char>)
    requires forall i :: 0 <= i < |s| ==> s[i] !in bad
    ensures Without(s, bad) == s
  {
    if s != [] {
      WithoutNoneBad(s[1..], bad);
    }
  }

  /** Removal distributes over concatenation, so the characters that stay
      keep their original order. */
  lemma {:induction false} WithoutAppend(a: string, b: string, bad: set<char>)
    ensures Without(a + b, bad) == Without(a, bad) + Without(b, bad)
  {
    if a != [] {
      ConsTail(a, b);
      WithoutAppend(a[1..], b, bad);
      AppendAssoc(if a[0] in bad then [] else [a[0]], Without(a[1..], bad), Without(b, bad));
    } else {
      EmptyAppend(b);
    }
  }

  /** `s.replace(c, '')`. */
  function RemoveChar(s: string, c: char): (r: string)
    ensures c !in r
  {
    Without(s, {c})
  }

  /** Removing characters one at a time is removing them all at once. */
  lemma {:induction false} RemoveCharWithout(s: string, bad: set<char>, c: char)
    ensures RemoveChar(Without(s, bad), c) == Without(s, bad + {c})
  {
    if s != [] {
      RemoveCharWithout(s[1..], bad, c);
      var w := Without(s, bad);
      if s[0] !in bad {
        SingletonCons(s[0], Without(s[1..], bad));
      } else {
        EmptyAppend(Without(s[1..], bad));
      }
    }
  }

  /** SQLite's BINARY collation on TEXT: lexicographic order of the UTF-8
      bytes, which is the lexicographic order of the code points. */
  predicate LexLess(a: string, b: string) {
    if a == [] then b != []
    else if b == [] then false
    else a[0] < b[0] || (a[0] == b[0] && LexLess(a[1..], b[1..]))
  }

  /** Non-strict BINARY order. */
  predicate LexLeq(a: string, b: string) {
    a == b || LexLess(a, b)
  }

  lemma {:induction false} LexLessIrreflexive(a: string)
    ensures !LexLess(a, a)
  {
    if a != [] {
      LexLessIrreflexive(a[1..]);
    }
  }

  lemma {:induction false} LexLessTransitive(a: string, b: string, c: string)
    requires LexLess(a, b) && LexLess(b, c)
    ensures LexLess(a, c)
  {
    if a != [] && b != [] && c != [] && a[0] == b[0] && b[0] == c[0] {
      LexLessTransitive(a[1..], b[1..], c[1..]);
    }
  }

  /** Any two different strings are ordered one way or the other. */
  lemma {:induction false} LexLessTotal(a: string, b: string)
    requires a != b
    ensures LexLess(a, b) || LexLess(b, a)
  {
    if a != [] && b != [] && a[0] == b[0] {
      HeadTail(a);
      HeadTail(b);
      LexLessTotal(a[1..], b[1..]);
    }
  }

  lemma LexLessAsymmetric(a: string, b: string)
    requires LexLess(a, b)
    ensures !LexLess(b, a)
  {
    if LexLess(b, a) {
      LexLessTransitive(a, b, a);
      LexLessIrreflexive(a);
    }
  }

  /** Strictly ascending in BINARY order, hence without repetitions. */
  predicate Ascending(s: seq<string>) {
    forall i, j :: 0 <= i < j < |s| ==> LexLess(s[i], s[j])
  }

  lemma AscendingCons(x: string, s: seq<string>)
    requires Ascending(s)
    requires s != [] ==> LexLess(x, s[0])
    ensures Ascending([x] + s)
  {
    var r := [x] + s;
    forall i, j | 0 <= i < j < |r| ensures LexLess(r[i], r[j]) {
      if i == 0 && j > 1 {
        LexLessTransitive(x, s[0], s[j - 1]);
      }
    }
  }

  /** `x` added to an ascending list of distinct keys, in its place; a key
      already present is not added again. */
  function AddKey(x: string, s: seq<string>): (r: seq<string>)
    requires Ascending(s)
    ensures Ascending(r)
    ensures forall y :: y in r <==> y in s || y == x
  {
    if s == [] then [x]
    else if x == s[0] then s
    else if LexLess(x, s[0]) then
      AscendingCons(x, s);
      [x] + s
    else
      LexLessTotal(x, s[0]);
      var t := AddKey(x, s[1..]);
      assert forall y :: y in s[1..] ==> LexLess(s[0], y);
      AscendingCons(s[0], t);
      [s[0]] + t
  }

  /** In an ascending list, every key before position `k` is below every
      key from `k` on. */
  lemma AscendingSplit(s: seq<string>, k: nat, x: string, y: string)
    requires Ascending(s) && k <= |s|
    requires x in s[..k] && y in s[k..]
    ensures LexLess(x, y)
  {
    var i :| 0 <= i < k && s[i] == x;
    var j :| k <= j < |s| && s[j] == y;
  }

  /** Python `str(n)` for a natural number. */
  function NatToString(n: nat): (r: string)
    ensures |r| >= 1
    ensures forall i :: 0 <= i < |r| ==> '0' <= r[i] <= '9'
  {
    var d := [(('0' as int) + n % 10) as char];
    if n < 10 then d else NatToString(n / 10) + d
  }

  /** Python `str(i)` for any integer. */
  function IntToString(i: int): string {
    if i < 0 then "-" + NatToString(-i) else NatToString(i)
  }
}
