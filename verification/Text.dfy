/** Byte strings as Go handles them: order, case, splitting and joining. A `char` stands for one byte. */
module Text {
  import opened Order

  /** Go's `<` on strings: lexicographic by byte. */
  predicate Less(a: string, b: string) {
    b != [] && (a == [] || a[0] < b[0] || (a[0] == b[0] && Less(a[1..], b[1..])))
  }

  lemma {:induction false} LessIrreflexive(a: string)
    ensures !Less(a, a)
  {
    if a != [] { LessIrreflexive(a[1..]); }
  }

  lemma {:induction false} LessTransitive(a: string, b: string, c: string)
    requires Less(a, b) && Less(b, c)
    ensures Less(a, c)
  {
    if a != [] && a[0] == b[0] == c[0] { LessTransitive(a[1..], b[1..], c[1..]); }
  }

  lemma {:induction false} LessTotal(a: string, b: string)
    ensures a == b || Less(a, b) || Less(b, a)
  {
    if a != [] && b != [] && a[0] == b[0] {
      LessTotal(a[1..], b[1..]);
      assert a == [a[0]] + a[1..] && b == [b[0]] + b[1..];
    }
  }

  /** `a` is a proper prefix of `b`, or they first differ at `k` and `a` has the smaller byte there. */
  predicate DiffersAt(a: string, b: string, k: nat) {
    k <= |a| && k < |b| && a[..k] == b[..k] && (k < |a| ==> a[k] < b[k])
  }

  /** What the order is: the first difference decides, and a prefix comes first. */
  lemma {:induction false} LessExactly(a: string, b: string)
    ensures Less(a, b) <==> exists k :: DiffersAt(a, b, k)
  {
    if a != [] && b != [] && a[0] == b[0] {
      LessExactly(a[1..], b[1..]);
      if k: nat :| DiffersAt(a[1..], b[1..], k) {
        assert a[..k + 1] == [a[0]] + a[1..][..k] && b[..k + 1] == [b[0]] + b[1..][..k];
        assert DiffersAt(a, b, k + 1);
      }
      if k: nat :| DiffersAt(a, b, k) {
        assert k > 0;
        assert a[1..][..k - 1] == a[..k][1..] && b[1..][..k - 1] == b[..k][1..];
        assert DiffersAt(a[1..], b[1..], k - 1);
      }
    } else {
      assert Less(a, b) ==> DiffersAt(a, b, 0);
      forall k: nat | k > 0 && DiffersAt(a, b, k) ensures Less(a, b) {
        assert a[..k][0] == b[..k][0];
      }
    }
  }

  lemma LessIsStrictWeak()
    ensures StrictWeak(Less)
  {
    forall a ensures !Less(a, a) { LessIrreflexive(a); }
    forall a, b, c | Less(a, b) && Less(b, c) ensures Less(a, c) { LessTransitive(a, b, c); }
    forall a, b, c | Less(a, c) ensures Less(a, b) || Less(b, c) {
      LessTotal(a, b);
      if Less(b, a) { LessTransitive(b, a, c); }
    }
  }

  lemma LessTotalOn(xs: seq<string>)
    ensures TotalOn(xs, Less)
  {
    forall x, y | x in xs && y in xs && x != y ensures Less(x, y) || Less(y, x) { LessTotal(x, y); }
  }

  /** sort.Strings */
  function SortStrings(xs: seq<string>): seq<string> { Sort(xs, Less) }

  lemma SortStringsProperties(xs: seq<string>)
    ensures multiset(SortStrings(xs)) == multiset(xs) && |SortStrings(xs)| == |xs|
    ensures Sorted(SortStrings(xs), Less)
    ensures forall x :: x in SortStrings(xs) <==> x in xs
    ensures Distinct(xs) ==> StrictlySorted(SortStrings(xs), Less)
  {
    LessIsStrictWeak();
    LessTotalOn(xs);
    SortMultiset(xs, Less);
    SortSorted(xs, Less);
    SortMembers(xs, Less);
    if Distinct(xs) { SortStrict(xs, Less); }
  }

  lemma SortStringsPermutation(xs: seq<string>, ys: seq<string>)
    requires multiset(xs) == multiset(ys)
    ensures SortStrings(xs) == SortStrings(ys)
  {
    LessIsStrictWeak();
    LessTotalOn(xs);
    SortPermutation(xs, ys, Less);
  }

  /** Strictly sorted string lists are determined by their members. */
  lemma StrictStringsUnique(xs: seq<string>, ys: seq<string>)
    requires StrictlySorted(xs, Less) && StrictlySorted(ys, Less)
    requires forall x :: x in xs <==> x in ys
    ensures xs == ys
  {
    LessIsStrictWeak();
    StrictlySortedUnique(xs, ys, Less);
  }

  lemma SortOne(x: string)
    ensures SortStrings([x]) == [x]
  {
    assert [x][1..] == [] && Sort([], Less) == [];
  }

  function LowerChar(c: char): char {
    if 'A' <= c <= 'Z' then (c as int + 32) as char else c
  }

  /** strings.ToLower on ASCII. */
  function Lower(s: string): (r: string)
    ensures |r| == |s|
  {
    seq(|s|, i requires 0 <= i < |s| => LowerChar(s[i]))
  }

  /** Each letter becomes the small one at the same place of the alphabet; nothing else changes. */
  lemma LowerExactly(s: string, i: nat)
    requires i < |s|
    ensures 'A' <= s[i] <= 'Z' ==>
              'a' <= Lower(s)[i] <= 'z' && Lower(s)[i] as int - 'a' as int == s[i] as int - 'A' as int
    ensures !('A' <= s[i] <= 'Z') ==> Lower(s)[i] == s[i]
  {
  }

  lemma LowerIdempotent(s: string)
    ensures Lower(Lower(s)) == Lower(s)
  {
  }

  predicate HasPrefix(s: string, p: string) { p <= s }

  predicate HasSuffix(s: string, p: string) { |p| <= |s| && s[|s| - |p|..] == p }

  lemma NotPrefix(s: string, p: string, k: nat)
    requires k < |p| && (|s| <= k || s[k] != p[k])
    ensures !HasPrefix(s, p)
  {
  }

  lemma NotSuffix(s: string, p: string, k: nat)
    requires k < |p| && (|s| < |p| || s[|s| - |p| + k] != p[k])
    ensures !HasSuffix(s, p)
  {
    if |p| <= |s| { assert s[|s| - |p|..][k] == s[|s| - |p| + k]; }
  }

  /** strings.Split with a one-byte separator. */
  function Split(s: string, c: char): (r: seq<string>)
    ensures |r| >= 1
  {
    if s == [] then [""]
    else
      var rest := Split(s[1..], c);
      if s[0] == c then [""] + rest else [[s[0]] + rest[0]] + rest[1..]
  }

  /** strings.Join */
  function Join(parts: seq<string>, sep: string): string {
    if parts == [] then ""
    else if |parts| == 1 then parts[0]
    else parts[0] + sep + Join(parts[1..], sep)
  }

  ghost predicate NoneContains(parts: seq<string>, c: char) {
    forall i :: 0 <= i < |parts| ==> c !in parts[i]
  }

  lemma {:induction false} SplitPrefix(p: string, s: string, c: char)
    requires c !in p
    ensures Split(p + s, c) == [p + Split(s, c)[0]] + Split(s, c)[1..]
  {
    if p == [] {
      assert p + s == s;
      assert p + Split(s, c)[0] == Split(s, c)[0];
    } else {
      SplitPrefix(p[1..], s, c);
      assert (p + s)[1..] == p[1..] + s;
      assert [p[0]] + (p[1..] + Split(s, c)[0]) == p + Split(s, c)[0];
    }
  }

  /** Splitting undoes joining when no part holds the separator. */
  lemma {:induction false} SplitJoin(parts: seq<string>, c: char)
    requires |parts| >= 1 && NoneContains(parts, c)
    ensures Split(Join(parts, [c]), c) == parts
  {
    if |parts| == 1 {
      SplitPrefix(parts[0], "", c);
      assert parts[0] + "" == parts[0];
      assert parts == [parts[0]];
    } else {
      var tail := Join(parts[1..], [c]);
      SplitJoin(parts[1..], c);
      SplitPrefix(parts[0], [c] + tail, c);
      assert parts[0] + [c] + tail == parts[0] + ([c] + tail);
      assert ([c] + tail)[1..] == tail;
      assert parts[0] + "" == parts[0];
      assert parts == [parts[0]] + parts[1..];
    }
  }

  /** Joining undoes splitting, and no piece holds the separator. */
  lemma {:induction false} JoinSplit(s: string, c: char)
    ensures Join(Split(s, c), [c]) == s
    ensures NoneContains(Split(s, c), c)
  {
    if s != [] {
      JoinSplit(s[1..], c);
      var rest := Split(s[1..], c);
      if s[0] == c {
        assert Split(s, c)[1..] == rest;
        assert "" + [c] + Join(rest, [c]) == s;
      } else {
        assert Split(s, c) == [[s[0]] + rest[0]] + rest[1..];
        assert Split(s, c)[1..] == rest[1..];
        if |rest| > 1 {
          assert [s[0]] + (rest[0] + [c] + Join(rest[1..], [c])) == ([s[0]] + rest[0]) + [c] + Join(rest[1..], [c]);
        }
        assert s == [s[0]] + s[1..];
      }
    }
  }

  lemma {:induction false} JoinAppend(a: seq<string>, b: seq<string>, sep: string)
    requires a != [] && b != []
    ensures Join(a + b, sep) == Join(a, sep) + (sep + Join(b, sep))
  {
    if |a| == 1 {
      assert (a + b)[1..] == b;
    } else {
      JoinAppend(a[1..], b, sep);
      assert (a + b)[1..] == a[1..] + b;
      var x, y := Join(a[1..], sep), sep + Join(b, sep);
      assert a[0] + sep + (x + y) == (a[0] + sep + x) + y;
    }
  }

  lemma SplitAround(p: string, rest: string, c: char)
    ensures Split(p + ([c] + rest), c) == Split(p, c) + Split(rest, c)
  {
    JoinSplit(p, c);
    JoinSplit(rest, c);
    JoinAppend(Split(p, c), Split(rest, c), [c]);
    SplitJoin(Split(p, c) + Split(rest, c), c);
  }
}
