/** hostsfile.go on whole files: content is split into lines, edited and joined again. */
module FileBytes {
  import opened Text
  import opened HostsFile

  /** strings.TrimRight(content, "\n") */
  function TrimNewlines(s: string): string
    decreases |s|
  {
    if s != [] && s[|s| - 1] == '\n' then TrimNewlines(s[..|s| - 1]) else s
  }

  function Lines(content: string): seq<string> {
    if content == "" then [] else Split(TrimNewlines(content), '\n')
  }

  function Render(lines: seq<string>): string {
    if lines == [] then "" else Join(lines, "\n") + "\n"
  }

  /** withManagedBlock */
  function WithManagedBlock(content: string, m: Markers, body: seq<string>): string {
    Render(Edit(m, Lines(content), body))
  }

  /** The same through the line loop. */
  method ManagedBlock(content: string, m: Markers, body: seq<string>) returns (r: string)
    ensures r == WithManagedBlock(content, m, body)
  {
    var out := EditLines(Lines(content), m, body);
    r := Render(out);
  }

  ghost predicate OneLiners(lines: seq<string>) { NoneContains(lines, '\n') }

  /** Line lists a file can give: empty, one blank line, or ending in a line that is not blank. */
  predicate Settled(lines: seq<string>) { |lines| <= 1 || lines[|lines| - 1] != "" }

  // ---- lines and bytes ----

  lemma {:induction false} TrimEnds(s: string)
    ensures TrimNewlines(s) == "" || TrimNewlines(s)[|TrimNewlines(s)| - 1] != '\n'
    decreases |s|
  {
    if s != [] && s[|s| - 1] == '\n' { TrimEnds(s[..|s| - 1]); }
  }

  lemma {:induction false} SplitLast(s: string, c: char)
    requires s != "" && s[|s| - 1] != c
    ensures Split(s, c)[|Split(s, c)| - 1] != ""
  {
    if |s| > 1 {
      SplitLast(s[1..], c);
    } else {
      assert s[1..] == [];
    }
  }

  lemma LinesSettled(content: string)
    ensures Settled(Lines(content)) && OneLiners(Lines(content))
  {
    var t := TrimNewlines(content);
    TrimEnds(content);
    JoinSplit(t, '\n');
    if t != "" { SplitLast(t, '\n'); }
  }

  lemma {:induction false} JoinLast(lines: seq<string>, sep: string)
    requires lines != []
    ensures |lines| > 1 ==> Join(lines, sep) == Join(lines[..|lines| - 1], sep) + sep + lines[|lines| - 1]
  {
    if |lines| == 2 {
      assert lines[1..] == [lines[1]] && lines[..1] == [lines[0]];
    } else if |lines| > 2 {
      JoinLast(lines[1..], sep);
      var n := |lines| - 1;
      assert lines[1..][..n - 1] == lines[..n][1..];
      assert lines[0] + sep + (Join(lines[..n][1..], sep) + sep + lines[n]) ==
             (lines[0] + sep + Join(lines[..n][1..], sep)) + sep + lines[n];
    }
  }

  lemma JoinEnds(lines: seq<string>)
    requires lines != [] && lines[|lines| - 1] != "" && OneLiners(lines)
    ensures var s := Join(lines, "\n"); s != "" && s[|s| - 1] != '\n'
  {
    JoinLast(lines, "\n");
    var last := lines[|lines| - 1];
    assert '\n' !in last;
    assert last[|last| - 1] in last;
  }

  lemma TrimNewline(s: string)
    ensures TrimNewlines(s + "\n") == TrimNewlines(s)
  {
    assert (s + "\n")[..|s|] == s;
  }

  /** Reading back what was rendered gives the same lines, for lines a file can give. */
  lemma LinesRender(lines: seq<string>)
    requires Settled(lines) && OneLiners(lines)
    ensures Lines(Render(lines)) == lines
  {
    if lines != [] {
      var s := Join(lines, "\n");
      TrimNewline(s);
      if lines == [""] {
        assert TrimNewlines(s) == "";
      } else {
        assert lines[|lines| - 1] != "";
        JoinEnds(lines);
      }
      SplitJoin(lines, '\n');
    }
  }

  lemma RenderInjective(a: seq<string>, b: seq<string>)
    requires OneLiners(a) && OneLiners(b) && Render(a) == Render(b)
    ensures a == b
  {
    if a != [] && b != [] {
      var x, y := Join(a, "\n"), Join(b, "\n");
      assert (x + "\n")[..|x|] == x && (y + "\n")[..|y|] == y;
      SplitJoin(a, '\n');
      SplitJoin(b, '\n');
    }
  }

  lemma RenderBlankLast(lines: seq<string>)
    requires |lines| > 1 && lines[|lines| - 1] == ""
    ensures Render(lines) == Render(lines[..|lines| - 1]) + "\n"
  {
    JoinLast(lines, "\n");
  }

  lemma LinesBlankLast(lines: seq<string>)
    requires |lines| > 1 && lines[|lines| - 1] == ""
    ensures Lines(Render(lines)) == Lines(Render(lines[..|lines| - 1]))
  {
    RenderBlankLast(lines);
    TrimNewline(Render(lines[..|lines| - 1]));
  }

  /** The lines up to the last one a file can end in. */
  function SettledLength(lines: seq<string>): (n: nat)
    ensures n <= |lines|
    ensures forall i :: n <= i < |lines| ==> lines[i] == ""
    decreases |lines|
  {
    if Settled(lines) then |lines| else SettledLength(lines[..|lines| - 1])
  }

  /** Reading back what was rendered only loses trailing blank lines. */
  lemma {:induction false} LinesRenderDrops(lines: seq<string>)
    requires OneLiners(lines)
    ensures Lines(Render(lines)) == lines[..SettledLength(lines)]
    decreases |lines|
  {
    if Settled(lines) {
      LinesRender(lines);
      assert lines[..|lines|] == lines;
    } else {
      var init := lines[..|lines| - 1];
      LinesRenderDrops(init);
      LinesBlankLast(lines);
      assert init[..SettledLength(init)] == lines[..SettledLength(init)];
    }
  }

  // ---- byte-level idempotence, exactly ----

  /** The last line that stays behind the block (or of the whole rest, without a block) is not blank. */
  predicate EndsClean(m: Markers, lines: seq<string>, body: seq<string>) {
    var kept := Strip(m, lines);
    if body == [] then Settled(kept)
    else |kept| <= InsertAt(m, lines) || kept[|kept| - 1] != ""
  }

  lemma EndsCleanIsSettled(m: Markers, lines: seq<string>, body: seq<string>)
    requires m.end != ""
    ensures EndsClean(m, lines, body) <==> Settled(Edit(m, lines, body))
  {
    var pre, post := EditShape(m, lines, body);
    var e := Edit(m, lines, body);
    if body == [] {
      assert e == pre + post;
    } else {
      assert e == pre + ([m.begin] + body + [m.end]) + post;
      if post == [] {
        assert e[|e| - 1] == m.end;
      } else {
        assert e[|e| - 1] == post[|post| - 1] == (pre + post)[|pre + post| - 1];
      }
    }
  }

  lemma {:induction false} StripOneLiners(m: Markers, lines: seq<string>)
    requires OneLiners(lines)
    ensures OneLiners(Strip(m, lines))
    decreases |lines|
  {
    if lines != [] {
      var j := 1 + NextMarker(m, lines[1..]);
      if lines[0] == m.begin && j < |lines| && lines[j] == m.end {
        StripOneLiners(m, lines[j + 1..]);
      } else {
        StripOneLiners(m, lines[1..]);
      }
    }
  }

  lemma EditOneLiners(m: Markers, lines: seq<string>, body: seq<string>)
    requires OneLiners(lines) && OneLiners(body) && '\n' !in m.begin && '\n' !in m.end
    ensures OneLiners(Edit(m, lines, body))
  {
    StripOneLiners(m, lines);
    StripPrefix(m, lines);
  }

  /** Cutting trailing blank lines off an edited file leaves an edited file. */
  lemma CutEdited(m: Markers, lines: seq<string>, body: seq<string>, n: nat)
    requires m.begin != m.end && Free(m, body) && m.end != ""
    requires n <= |Edit(m, lines, body)|
    requires forall i :: n <= i < |Edit(m, lines, body)| ==> Edit(m, lines, body)[i] == ""
    ensures Edit(m, Edit(m, lines, body)[..n], body) == Edit(m, lines, body)[..n]
  {
    var pre, post := EditShape(m, lines, body);
    var e, t := Edit(m, lines, body), Edit(m, lines, body)[..n];
    if body == [] {
      assert e == pre + post;
      EditFresh(m, t, body);
    } else {
      var block := BlockLines(m, body);
      var q := |pre| + |block|;
      assert e == pre + block + post;
      assert e[q - 1] == m.end;
      assert t == pre + block + post[..n - q];
      EditAt(m, pre, body, post[..n - q], body);
    }
  }

  /**
   * A second edit of the same file changes no byte if and only if the lines kept behind the
   * block do not end in a blank line.
   */
  lemma ByteIdempotence(m: Markers, content: string, body: seq<string>)
    requires m.begin != m.end && Free(m, body) && m.end != ""
    requires OneLiners(body) && '\n' !in m.begin && '\n' !in m.end
    ensures var once := WithManagedBlock(content, m, body);
            WithManagedBlock(once, m, body) == once <==> EndsClean(m, Lines(content), body)
  {
    var lines := Lines(content);
    var e := Edit(m, lines, body);
    LinesSettled(content);
    EditOneLiners(m, lines, body);
    EndsCleanIsSettled(m, lines, body);
    if Settled(e) {
      LinesRender(e);
      EditIdempotent(m, lines, body);
    } else {
      var n := SettledLength(e);
      LinesRenderDrops(e);
      CutEdited(m, lines, body, n);
      LinesSettled(Render(e));
      assert e[..n] != e;
      if Render(e[..n]) == Render(e) { RenderInjective(e[..n], e); }
    }
  }

  /** A file with at most one begin marker and a block to write is always edited idempotently. */
  lemma ByteIdempotentWithOneMarker(m: Markers, content: string, body: seq<string>)
    requires m.begin != m.end && Free(m, body) && m.end != "" && body != []
    requires OneLiners(body) && '\n' !in m.begin && '\n' !in m.end
    requires forall i, j :: 0 <= i < j < |Lines(content)| ==>
        Lines(content)[i] != m.begin || Lines(content)[j] != m.begin
    ensures var once := WithManagedBlock(content, m, body);
            WithManagedBlock(once, m, body) == once
  {
    var lines := Lines(content);
    LinesSettled(content);
    OneMarkerEndsClean(m, lines, body);
    ByteIdempotence(m, content, body);
  }

  /** With one begin marker, Strip cuts one stretch out of the file. */
  lemma StripOneMarker(m: Markers, lines: seq<string>, p: nat) returns (next: nat)
    requires p < |lines| && lines[p] == m.begin
    requires forall i :: 0 <= i < |lines| && i != p ==> lines[i] != m.begin
    ensures p < next <= |lines| && Strip(m, lines) == lines[..p] + lines[next..]
  {
    var j := p + 1 + NextMarker(m, lines[p + 1..]);
    forall x | p + 1 <= x < j ensures !IsMarker(m, lines[x]) { assert lines[x] == lines[p + 1..][x - p - 1]; }
    next := if j < |lines| && lines[j] == m.end then j + 1 else p + 1;
    assert lines == lines[..p] + lines[p..];
    StripAppend(m, lines[..p], lines[p..]);
    StripDrop(m, lines, p, j);
    StripNoBegin(m, lines[next..]);
  }

  lemma OneMarkerEndsClean(m: Markers, lines: seq<string>, body: seq<string>)
    requires Settled(lines) && body != []
    requires forall i, j :: 0 <= i < j < |lines| ==> lines[i] != m.begin || lines[j] != m.begin
    ensures EndsClean(m, lines, body)
  {
    var p := InsertAt(m, lines);
    if p < |lines| {
      var next := StripOneMarker(m, lines, p);
      assert next < |lines| ==> lines[next..][|lines| - next - 1] == lines[|lines| - 1];
    } else {
      StripNoBegin(m, lines);
    }
  }

  function TwoBlocks(m: Markers): seq<string> { [m.begin, m.end, "", m.begin, m.end] }

  lemma StripTwoBlocks(m: Markers)
    requires m.begin != m.end && m.begin != ""
    ensures Strip(m, TwoBlocks(m)) == [""] && InsertAt(m, TwoBlocks(m)) == 0
  {
    var tail, lines := [m.begin, m.end], TwoBlocks(m);
    StripBlock(m, [], [""] + tail);
    assert [m.begin] + [] + [m.end] + ([""] + tail) == lines;
    StripAppend(m, [""], tail);
    StripBlock(m, [], []);
    assert [m.begin] + [] + [m.end] + [] == tail;
    InsertAtIs(m, lines, 0);
  }

  /** Two blocks around a blank line: the blank line ends up last, and the second edit trims it. */
  lemma TwoBlocksAreNotIdempotent(m: Markers, body: seq<string>)
    requires m.begin != m.end && Free(m, body) && m.begin != "" && m.end != "" && body != []
    requires OneLiners(body) && '\n' !in m.begin && '\n' !in m.end
    ensures var once := WithManagedBlock(Render(TwoBlocks(m)), m, body);
            WithManagedBlock(once, m, body) != once
  {
    LinesRender(TwoBlocks(m));
    StripTwoBlocks(m);
    ByteIdempotence(m, Render(TwoBlocks(m)), body);
  }

  // ---- adding and removing a block restores the file ----

  /** Files that are empty or end in exactly one newline. */
  predicate Tidy(content: string) {
    content == "" || (content[|content| - 1] == '\n' && (|content| > 1 ==> content[|content| - 2] != '\n'))
  }

  /** Splitting a file into lines and joining them again is the identity on tidy files only. */
  lemma TidyRender(content: string)
    ensures Render(Lines(content)) == content <==> Tidy(content)
  {
    if content != "" {
      var t, k := TrimNewlines(content), |content| - 1;
      var again := t + "\n";
      TrimEnds(content);
      JoinSplit(t, '\n');
      assert Render(Lines(content)) == again;
      assert |t| > 0 ==> again[|again| - 2] == t[|t| - 1];
      assert Tidy(again);
      if Tidy(content) {
        assert content == content[..k] + "\n";
        TrimNewline(content[..k]);
      }
    }
  }

  /**
   * Files this reflector may have edited, when the original holds no begin marker of it: the
   * original itself, or its lines followed by the reflector's block.
   */
  ghost predicate EditedFrom(content: string, original: string, m: Markers) {
    || content == original
    || exists body :: Free(m, body) && OneLiners(body) && content == Render(Lines(original) + BlockLines(m, body))
  }

  lemma EditAppended(lines: seq<string>, m: Markers, was: seq<string>, body: seq<string>)
    requires m.begin != m.end && Free(m, was) && m.begin !in lines
    ensures Edit(m, lines + BlockLines(m, was), body) == lines + BlockLines(m, body)
  {
    assert lines + BlockLines(m, was) + [] == lines + BlockLines(m, was);
    assert lines + BlockLines(m, body) + [] == lines + BlockLines(m, body);
    if was == [] {
      assert lines + BlockLines(m, was) == lines;
      EditFresh(m, lines, body);
    } else {
      EditAt(m, lines, was, [], body);
    }
  }

  lemma AppendedReadsBack(lines: seq<string>, m: Markers, was: seq<string>)
    requires m.end != "" && '\n' !in m.begin && '\n' !in m.end
    requires OneLiners(lines) && Settled(lines) && OneLiners(was)
    ensures Lines(Render(lines + BlockLines(m, was))) == lines + BlockLines(m, was)
  {
    var all := lines + BlockLines(m, was);
    assert was == [] ==> all == lines;
    assert was != [] ==> all[|all| - 1] == m.end;
    LinesRender(all);
  }

  /** The lines of an edited file: the original ones, then at most one block. */
  lemma EditedLines(content: string, original: string, m: Markers) returns (was: seq<string>)
    requires m.end != "" && '\n' !in m.begin && '\n' !in m.end && EditedFrom(content, original, m)
    ensures Free(m, was) && Lines(content) == Lines(original) + BlockLines(m, was)
  {
    if content == original {
      was := [];
    } else {
      was :| Free(m, was) && OneLiners(was) && content == Render(Lines(original) + BlockLines(m, was));
      LinesSettled(original);
      AppendedReadsBack(Lines(original), m, was);
    }
  }

  lemma EditStaysEdited(content: string, original: string, m: Markers, body: seq<string>)
    requires m.begin != m.end && m.end != "" && '\n' !in m.begin && '\n' !in m.end
    requires m.begin !in Lines(original) && EditedFrom(content, original, m) && Free(m, body) && OneLiners(body)
    ensures WithManagedBlock(content, m, body) == Render(Lines(original) + BlockLines(m, body))
    ensures EditedFrom(WithManagedBlock(content, m, body), original, m)
  {
    var was := EditedLines(content, original, m);
    EditAppended(Lines(original), m, was, body);
  }
}
