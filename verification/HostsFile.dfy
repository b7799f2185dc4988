/** internal/nodeagent/hostsfile.go: the tagged block one reflector owns in a file shared with other tools. */
module HostsFile {
  import opened Text

  datatype Markers = Markers(begin: string, end: string)

  /** /etc/hosts and the distro CA bundle use different marker lines. */
  datatype Kind = Hosts | CA

  const BEGIN_PREFIX := "# BEGIN weft-local-dns-reflector "
  const END_PREFIX := "# END weft-local-dns-reflector "

  function BeginSuffix(kind: Kind): string {
    if kind == CA then " CA (managed by weft-operator; do not edit)" else " (managed by weft-operator; do not edit)"
  }

  function EndSuffix(kind: Kind): string { if kind == CA then " CA" else "" }

  function MarkersOf(kind: Kind, reflector: string): Markers {
    Markers(BEGIN_PREFIX + reflector + BeginSuffix(kind), END_PREFIX + reflector + EndSuffix(kind))
  }

  predicate IsMarker(m: Markers, line: string) { line == m.begin || line == m.end }

  /** No line from lo up to hi is a marker of `m`. */
  predicate FreeRange(m: Markers, lines: seq<string>, lo: nat, hi: nat)
    requires hi <= |lines|
  {
    forall i :: lo <= i < hi ==> !IsMarker(m, lines[i])
  }

  predicate Free(m: Markers, lines: seq<string>) { FreeRange(m, lines, 0, |lines|) }

  /** Index of the first marker line, or the length. */
  function NextMarker(m: Markers, lines: seq<string>): (j: nat)
    ensures j <= |lines| && FreeRange(m, lines, 0, j)
    ensures j < |lines| ==> IsMarker(m, lines[j])
  {
    if lines == [] || IsMarker(m, lines[0]) then 0
    else 1 + NextMarker(m, lines[1..])
  }

  /** The lines left once every complete block and every unterminated begin marker is dropped. */
  function Strip(m: Markers, lines: seq<string>): seq<string>
    decreases |lines|
  {
    if lines == [] then []
    else if lines[0] != m.begin then [lines[0]] + Strip(m, lines[1..])
    else
      var j := 1 + NextMarker(m, lines[1..]);
      if j < |lines| && lines[j] == m.end then Strip(m, lines[j + 1..]) else Strip(m, lines[1..])
  }

  /** Where the block goes: the place of the first begin marker, else the end. */
  function InsertAt(m: Markers, lines: seq<string>): (p: nat)
    ensures p <= |lines|
    ensures forall i :: 0 <= i < p ==> lines[i] != m.begin
    ensures p < |lines| ==> lines[p] == m.begin
  {
    if lines == [] || lines[0] == m.begin then 0 else 1 + InsertAt(m, lines[1..])
  }

  function BlockLines(m: Markers, body: seq<string>): seq<string> {
    if body == [] then [] else [m.begin] + body + [m.end]
  }

  lemma {:induction false} StripAppend(m: Markers, a: seq<string>, b: seq<string>)
    requires m.begin !in a
    ensures Strip(m, a + b) == a + Strip(m, b)
  {
    if a == [] {
      assert a + b == b;
    } else {
      assert (a + b)[1..] == a[1..] + b;
      StripAppend(m, a[1..], b);
    }
  }

  lemma StripPrefix(m: Markers, lines: seq<string>)
    ensures InsertAt(m, lines) <= |Strip(m, lines)|
    ensures Strip(m, lines)[..InsertAt(m, lines)] == lines[..InsertAt(m, lines)]
  {
    var p := InsertAt(m, lines);
    assert lines == lines[..p] + lines[p..];
    StripAppend(m, lines[..p], lines[p..]);
  }

  /** withManagedBlock on lines. */
  function Edit(m: Markers, lines: seq<string>, body: seq<string>): seq<string> {
    StripPrefix(m, lines);
    var kept, p := Strip(m, lines), InsertAt(m, lines);
    kept[..p] + BlockLines(m, body) + kept[p..]
  }

  lemma StripKeep(m: Markers, lines: seq<string>, i: nat)
    requires i < |lines| && lines[i] != m.begin
    ensures Strip(m, lines[i..]) == [lines[i]] + Strip(m, lines[i + 1..])
  {
    assert lines[i..][1..] == lines[i + 1..];
  }

  lemma StripDrop(m: Markers, lines: seq<string>, i: nat, j: nat)
    requires i < j <= |lines| && lines[i] == m.begin && FreeRange(m, lines, i + 1, j)
    requires j < |lines| ==> IsMarker(m, lines[j])
    ensures var next := if j < |lines| && lines[j] == m.end then j + 1 else i + 1;
            Strip(m, lines[i..]) == Strip(m, lines[next..])
  {
    assert lines[i..][1..] == lines[i + 1..];
    NextMarkerIs(m, lines[i + 1..], j - i - 1);
    if j < |lines| { assert lines[i..][j - i + 1..] == lines[j + 1..]; }
  }

  lemma NextMarkerIs(m: Markers, lines: seq<string>, j: nat)
    requires j <= |lines| && FreeRange(m, lines, 0, j)
    requires j < |lines| ==> IsMarker(m, lines[j])
    ensures NextMarker(m, lines) == j
  {
  }

  lemma InsertAtIs(m: Markers, lines: seq<string>, p: nat)
    requires p <= |lines| && forall i :: 0 <= i < p ==> lines[i] != m.begin
    requires p < |lines| ==> lines[p] == m.begin
    ensures InsertAt(m, lines) == p
  {
  }

  /** The inner loop of withManagedBlock. */
  method ScanToMarker(lines: seq<string>, m: Markers, from: nat) returns (j: nat)
    requires from <= |lines|
    ensures from <= j <= |lines| && FreeRange(m, lines, from, j) && (j < |lines| ==> IsMarker(m, lines[j]))
  {
    j := from;
    while j < |lines| && lines[j] != m.end && lines[j] != m.begin
      invariant from <= j <= |lines| && FreeRange(m, lines, from, j)
    {
      j := j + 1;
    }
  }

  /**
   * What the outer loop knows at line `i`: the lines it kept, and where the first begin marker was, if any
   * (else -1).
   */
  ghost predicate Scanned(m: Markers, lines: seq<string>, i: int, out: seq<string>, insertAt: int) {
    && 0 <= i <= |lines| && out + Strip(m, lines[i..]) == Strip(m, lines)
    && if insertAt < 0 then |out| == i && m.begin !in lines[..i] else insertAt == InsertAt(m, lines) <= |out|
  }

  lemma ScannedKept(m: Markers, lines: seq<string>, i: nat, out: seq<string>, insertAt: int)
    requires i < |lines| && lines[i] != m.begin && Scanned(m, lines, i, out, insertAt)
    ensures Scanned(m, lines, i + 1, out + [lines[i]], insertAt)
  {
    StripKeep(m, lines, i);
    assert out + ([lines[i]] + Strip(m, lines[i + 1..])) == (out + [lines[i]]) + Strip(m, lines[i + 1..]);
    assert lines[..i + 1] == lines[..i] + [lines[i]];
  }

  lemma ScannedDropped(m: Markers, lines: seq<string>, i: nat, j: nat, out: seq<string>, insertAt: int)
    requires i < j <= |lines| && lines[i] == m.begin && FreeRange(m, lines, i + 1, j)
        && (j < |lines| ==> IsMarker(m, lines[j]))
    requires Scanned(m, lines, i, out, insertAt)
    ensures var next := if j < |lines| && lines[j] == m.end then j + 1 else i + 1;
            Scanned(m, lines, next, out, if insertAt < 0 then |out| else insertAt)
  {
    StripDrop(m, lines, i, j);
    if insertAt < 0 {
      forall k | 0 <= k < i ensures lines[k] != m.begin { assert lines[k] in lines[..i]; }
      InsertAtIs(m, lines, i);
    }
  }

  lemma ScannedAll(m: Markers, lines: seq<string>, out: seq<string>, insertAt: int)
    requires Scanned(m, lines, |lines|, out, insertAt)
    ensures out == Strip(m, lines) && InsertAt(m, lines) == if insertAt < 0 then |out| else insertAt
  {
    assert lines[|lines|..] == [] && out + [] == out;
    if insertAt < 0 {
      assert lines[..|lines|] == lines;
      InsertAtIs(m, lines, |lines|);
    }
  }

  /** The outer index loop of withManagedBlock. */
  method EditLines(lines: seq<string>, m: Markers, body: seq<string>) returns (out: seq<string>)
    ensures out == Edit(m, lines, body)
  {
    out := [];
    var insertAt, i := -1, 0;
    assert lines[0..] == lines;
    while i < |lines|
      invariant Scanned(m, lines, i, out, insertAt)
    {
      if lines[i] != m.begin {
        ScannedKept(m, lines, i, out, insertAt);
        out := out + [lines[i]];
      } else {
        var j := ScanToMarker(lines, m, i + 1);
        ScannedDropped(m, lines, i, j, out, insertAt);
        if insertAt < 0 {
          insertAt := |out|;
        }
        if j < |lines| && lines[j] == m.end {
          i := j;
        }
      }
      i := i + 1;
    }
    ScannedAll(m, lines, out, insertAt);
    if insertAt < 0 {
      insertAt := |out|;
    }
    out := out[..insertAt] + BlockLines(m, body) + out[insertAt..];
  }

  // ---- what Strip keeps, said by position rather than by recursion ----

  /** Lines i..j are a begin marker, lines that are no marker, and an end marker. */
  ghost predicate CompleteBlock(m: Markers, lines: seq<string>, i: int, j: int) {
    && 0 <= i < j < |lines|
    && lines[i] == m.begin && lines[j] == m.end
    && FreeRange(m, lines, i + 1, j)
  }

  ghost predicate InBlock(m: Markers, lines: seq<string>, k: int) {
    exists i, j :: CompleteBlock(m, lines, i, j) && i <= k <= j
  }

  /** From line k on, the lines outside every complete block that are not begin markers. */
  ghost function Outside(m: Markers, lines: seq<string>, k: nat): seq<string>
    requires k <= |lines|
    decreases |lines| - k
  {
    if k == |lines| then []
    else if lines[k] == m.begin || InBlock(m, lines, k) then Outside(m, lines, k + 1)
    else [lines[k]] + Outside(m, lines, k + 1)
  }

  lemma OutsideSkips(m: Markers, lines: seq<string>, k: nat, n: nat)
    requires k <= n <= |lines|
    requires forall x :: k <= x < n ==> lines[x] == m.begin || InBlock(m, lines, x)
    ensures Outside(m, lines, k) == Outside(m, lines, n)
    decreases n - k
  {
    if k < n { OutsideSkips(m, lines, k + 1, n); }
  }

  lemma BlocksDoNotOverlap(m: Markers, lines: seq<string>, i: int, j: int, i': int, j': int)
    requires m.begin != m.end
    requires CompleteBlock(m, lines, i, j) && CompleteBlock(m, lines, i', j')
    requires i <= i' <= j
    ensures i == i' && j == j'
  {
  }

  lemma FreeUpToNext(m: Markers, lines: seq<string>, k: nat)
    requires k <= |lines|
    ensures k + NextMarker(m, lines[k..]) <= |lines| && FreeRange(m, lines, k, k + NextMarker(m, lines[k..]))
  {
    var j := k + NextMarker(m, lines[k..]);
    forall x | k <= x < j ensures !IsMarker(m, lines[x]) { assert lines[x] == lines[k..][x - k]; }
  }

  lemma BlockIsSkipped(m: Markers, lines: seq<string>, k: nat, j: nat)
    requires CompleteBlock(m, lines, k, j)
    ensures Outside(m, lines, k) == Outside(m, lines, j + 1)
  {
    OutsideSkips(m, lines, k, j + 1);
  }

  /** No complete block begins before `k` and ends at or after it. */
  ghost predicate NoneStraddles(m: Markers, lines: seq<string>, k: nat) {
    forall i, j :: CompleteBlock(m, lines, i, j) && i < k ==> j < k
  }

  lemma AfterBlock(m: Markers, lines: seq<string>, k: nat, j: nat)
    requires m.begin != m.end && CompleteBlock(m, lines, k, j) && NoneStraddles(m, lines, k)
    ensures NoneStraddles(m, lines, j + 1)
  {
    forall i', j' | CompleteBlock(m, lines, i', j') && i' < j + 1 ensures j' < j + 1 {
      if k <= i' { BlocksDoNotOverlap(m, lines, k, j, i', j'); }
    }
  }

  /** Past a line that begins no complete block. */
  lemma AfterLine(m: Markers, lines: seq<string>, k: nat)
    requires NoneStraddles(m, lines, k) && forall j :: !CompleteBlock(m, lines, k, j)
    ensures NoneStraddles(m, lines, k + 1)
  {
  }

  lemma UnterminatedIsNoBlock(m: Markers, lines: seq<string>, k: nat, j: nat)
    requires m.begin != m.end && k < j <= |lines| && FreeRange(m, lines, k + 1, j)
        && (j < |lines| ==> lines[j] == m.begin)
    ensures forall j' :: !CompleteBlock(m, lines, k, j')
  {
  }

  lemma {:induction false} StripIsOutsideFrom(m: Markers, lines: seq<string>, k: nat)
    requires m.begin != m.end && k <= |lines| && NoneStraddles(m, lines, k)
    ensures Strip(m, lines[k..]) == Outside(m, lines, k)
    decreases |lines| - k
  {
    if k < |lines| {
      var j := k + 1 + NextMarker(m, lines[k + 1..]);
      FreeUpToNext(m, lines, k + 1);
      if lines[k] != m.begin {
        StripKeep(m, lines, k);
        AfterLine(m, lines, k);
        StripIsOutsideFrom(m, lines, k + 1);
        KeptLine(m, lines, k);
      } else if j < |lines| && lines[j] == m.end {
        StripDrop(m, lines, k, j);
        BlockIsSkipped(m, lines, k, j);
        AfterBlock(m, lines, k, j);
        StripIsOutsideFrom(m, lines, j + 1);
      } else {
        StripDrop(m, lines, k, j);
        UnterminatedIsNoBlock(m, lines, k, j);
        AfterLine(m, lines, k);
        StripIsOutsideFrom(m, lines, k + 1);
      }
    }
  }

  /** Outside every block, a line that is no begin marker is kept. */
  lemma KeptLine(m: Markers, lines: seq<string>, k: nat)
    requires k < |lines| && lines[k] != m.begin && NoneStraddles(m, lines, k)
    ensures Outside(m, lines, k) == [lines[k]] + Outside(m, lines, k + 1)
  {
    assert !InBlock(m, lines, k);
  }

  /** Strip keeps exactly the lines outside complete blocks, in order; of an unterminated begin only the marker goes. */
  lemma StripIsOutside(m: Markers, lines: seq<string>)
    requires m.begin != m.end
    ensures Strip(m, lines) == Outside(m, lines, 0)
  {
    assert lines[0..] == lines;
    StripIsOutsideFrom(m, lines, 0);
  }

  // ---- the managed-block law ----

  lemma {:induction false} StripHasNoBegin(m: Markers, lines: seq<string>)
    ensures m.begin !in Strip(m, lines)
    decreases |lines|
  {
    if lines != [] {
      var j := 1 + NextMarker(m, lines[1..]);
      if lines[0] == m.begin && j < |lines| && lines[j] == m.end {
        StripHasNoBegin(m, lines[j + 1..]);
      } else {
        StripHasNoBegin(m, lines[1..]);
      }
    }
  }

  lemma StripBlock(m: Markers, body: seq<string>, rest: seq<string>)
    requires m.begin != m.end && Free(m, body)
    ensures Strip(m, [m.begin] + body + [m.end] + rest) == Strip(m, rest)
  {
    var all := [m.begin] + body + [m.end] + rest;
    StripDrop(m, all, 0, |body| + 1);
    assert all[0..] == all && all[|body| + 2..] == rest;
  }

  lemma StripNoBegin(m: Markers, lines: seq<string>)
    requires m.begin !in lines
    ensures Strip(m, lines) == lines
  {
    StripAppend(m, lines, []);
    assert lines + [] == lines;
  }

  /** An edit of lines that hold one block between lines without a begin marker. */
  lemma EditAt(m: Markers, pre: seq<string>, was: seq<string>, post: seq<string>, body: seq<string>)
    requires m.begin != m.end && Free(m, was) && was != []
    requires m.begin !in pre && m.begin !in post
    ensures Strip(m, pre + BlockLines(m, was) + post) == pre + post
    ensures Edit(m, pre + BlockLines(m, was) + post, body) == pre + BlockLines(m, body) + post
  {
    var all := pre + BlockLines(m, was) + post;
    assert all == pre + ([m.begin] + was + [m.end] + post);
    StripAppend(m, pre, [m.begin] + was + [m.end] + post);
    StripBlock(m, was, post);
    StripNoBegin(m, post);
    InsertAtIs(m, all, |pre|);
    assert (pre + post)[..|pre|] == pre && (pre + post)[|pre|..] == post;
  }

  /** An edit of lines without a begin marker appends the block. */
  lemma EditFresh(m: Markers, lines: seq<string>, body: seq<string>)
    requires m.begin !in lines
    ensures Strip(m, lines) == lines
    ensures Edit(m, lines, body) == lines + BlockLines(m, body)
  {
    StripNoBegin(m, lines);
    InsertAtIs(m, lines, |lines|);
    assert lines[..|lines|] == lines && lines[|lines|..] == [];
    assert lines + BlockLines(m, body) + [] == lines + BlockLines(m, body);
  }

  /** Where an edit puts things: one block between kept lines holding no begin marker. */
  lemma EditShape(m: Markers, lines: seq<string>, body: seq<string>) returns (pre: seq<string>, post: seq<string>)
    ensures pre == lines[..InsertAt(m, lines)] && m.begin !in pre && m.begin !in post
    ensures Strip(m, lines) == pre + post
    ensures Edit(m, lines, body) == pre + BlockLines(m, body) + post
  {
    var kept, p := Strip(m, lines), InsertAt(m, lines);
    StripPrefix(m, lines);
    StripHasNoBegin(m, lines);
    pre, post := kept[..p], kept[p..];
    assert kept == pre + post;
  }

  /** Editing twice is editing once; the kept lines do not change. */
  lemma EditIdempotent(m: Markers, lines: seq<string>, body: seq<string>)
    requires m.begin != m.end && Free(m, body)
    ensures Edit(m, Edit(m, lines, body), body) == Edit(m, lines, body)
    ensures Strip(m, Edit(m, lines, body)) == Strip(m, lines)
  {
    var pre, post := EditShape(m, lines, body);
    if body == [] {
      assert Edit(m, lines, body) == pre + post;
      EditFresh(m, pre + post, body);
    } else {
      EditAt(m, pre, body, post, body);
    }
  }

  lemma CountBegin(m: Markers, pre: seq<string>, body: seq<string>, post: seq<string>)
    requires m.begin != m.end && Free(m, body) && m.begin !in pre && m.begin !in post
    ensures multiset(pre + BlockLines(m, body) + post)[m.begin] == if body == [] then 0 else 1
  {
    assert m.begin !in body;
    assert multiset(pre + BlockLines(m, body) + post) == multiset(pre) + multiset(BlockLines(m, body)) + multiset(post);
    assert body != [] ==> multiset(BlockLines(m, body)) == multiset{m.begin} + multiset(body) + multiset{m.end};
  }

  lemma BlockInPlace(m: Markers, pre: seq<string>, body: seq<string>, post: seq<string>)
    requires Free(m, body) && body != []
    ensures var e, p := pre + BlockLines(m, body) + post, |pre|;
            CompleteBlock(m, e, p, p + |body| + 1) && e[p + 1..p + |body| + 1] == body
  {
    var e, p := pre + BlockLines(m, body) + post, |pre|;
    assert e == pre + [m.begin] + body + [m.end] + post;
    assert e[p + 1..p + |body| + 1] == body;
    forall x | p + 1 <= x < p + |body| + 1 ensures !IsMarker(m, e[x]) { assert e[x] == body[x - p - 1]; }
  }

  /** Exactly one begin marker, opening a complete block that holds the body at p; none for an empty body. */
  ghost predicate OneBlockAt(m: Markers, e: seq<string>, body: seq<string>, p: nat) {
    && multiset(e)[m.begin] == (if body == [] then 0 else 1)
    && (body != [] ==> CompleteBlock(m, e, p, p + |body| + 1) && e[p + 1..p + |body| + 1] == body)
  }

  lemma OneBlockBetween(m: Markers, pre: seq<string>, body: seq<string>, post: seq<string>)
    requires m.begin != m.end && Free(m, body) && m.begin !in pre && m.begin !in post
    ensures OneBlockAt(m, pre + BlockLines(m, body) + post, body, |pre|)
  {
    CountBegin(m, pre, body, post);
    if body != [] { BlockInPlace(m, pre, body, post); }
  }

  lemma EditLeavesOneBlock(m: Markers, lines: seq<string>, body: seq<string>)
    requires m.begin != m.end && Free(m, body)
    ensures OneBlockAt(m, Edit(m, lines, body), body, InsertAt(m, lines))
  {
    var pre, post := EditShape(m, lines, body);
    OneBlockBetween(m, pre, body, post);
  }

  /** What is before and after the block: the untouched start of the file, then the lines outside complete blocks. */
  lemma EditKeepsOutside(m: Markers, lines: seq<string>, body: seq<string>)
    requires m.begin != m.end && Free(m, body)
    ensures lines[..InsertAt(m, lines)] <= Outside(m, lines, 0)
    ensures Edit(m, lines, body) ==
            lines[..InsertAt(m, lines)] + BlockLines(m, body) + Outside(m, lines, 0)[InsertAt(m, lines)..]
    ensures Outside(m, Edit(m, lines, body), 0) == Outside(m, lines, 0)
  {
    var pre, post := EditShape(m, lines, body);
    StripIsOutside(m, lines);
    StripIsOutside(m, Edit(m, lines, body));
    EditIdempotent(m, lines, body);
    assert (pre + post)[|pre|..] == post;
  }

  /**
   * The managed-block law. For any lines, damaged or duplicated blocks included: the edit
   * leaves exactly one begin..body..end block (none for an empty body) and no other begin
   * marker, in the place of the first begin; every line outside complete blocks stays, in
   * order; and editing again changes nothing.
   */
  lemma ManagedBlockLaw(m: Markers, lines: seq<string>, body: seq<string>)
    requires m.begin != m.end && Free(m, body)
    ensures OneBlockAt(m, Edit(m, lines, body), body, InsertAt(m, lines))
    ensures lines[..InsertAt(m, lines)] <= Outside(m, lines, 0)
    ensures Edit(m, lines, body) ==
            lines[..InsertAt(m, lines)] + BlockLines(m, body) + Outside(m, lines, 0)[InsertAt(m, lines)..]
    ensures Outside(m, Edit(m, lines, body), 0) == Outside(m, lines, 0)
    ensures Edit(m, Edit(m, lines, body), body) == Edit(m, lines, body)
  {
    EditLeavesOneBlock(m, lines, body);
    EditKeepsOutside(m, lines, body);
    EditIdempotent(m, lines, body);
  }
}
