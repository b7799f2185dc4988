/** internal/controller/weftlocaldnsreflector/coredns.go: the server blocks a reflector gives CoreDNS. */
module CoreDns {
  import opened Order
  import opened Text
  import opened Api
  import opened LocalDns

  // ---- pki.SortedLower ----

  function LowerAll(xs: seq<string>): seq<string> { seq(|xs|, i requires 0 <= i < |xs| => Lower(xs[i])) }

  /** slices.Compact: runs of equal elements become one. */
  function Compact(xs: seq<string>): seq<string> {
    if xs == [] then []
    else
      var done, x := Compact(xs[..|xs| - 1]), xs[|xs| - 1];
      if done != [] && done[|done| - 1] == x then done else done + [x]
  }

  function SortedLower(xs: seq<string>): seq<string> { Compact(SortStrings(LowerAll(xs))) }

  lemma {:induction false} CompactSorted(xs: seq<string>)
    requires Sorted(xs, Less)
    ensures StrictlySorted(Compact(xs), Less)
    ensures xs != [] ==> Compact(xs) != [] && Compact(xs)[|Compact(xs)| - 1] == xs[|xs| - 1]
    ensures forall x :: x in Compact(xs) <==> x in xs
  {
    if xs != [] {
      var n := |xs| - 1;
      CompactSorted(xs[..n]);
      assert xs == xs[..n] + [xs[n]];
      var done := Compact(xs[..n]);
      if n > 0 && done[|done| - 1] != xs[n] {
        var last := done[|done| - 1];
        LessTotal(last, xs[n]);
        forall i | 0 <= i < |done| - 1 ensures Less(done[i], xs[n]) { LessTransitive(done[i], last, xs[n]); }
      }
    }
  }

  /** The same names in any order, case or number give the same list: strictly sorted, in lower case. */
  lemma SortedLowerMembers(xs: seq<string>)
    ensures StrictlySorted(SortedLower(xs), Less)
    ensures forall h :: h in SortedLower(xs) <==> Names(xs, h)
  {
    var ls := LowerAll(xs);
    SortStringsProperties(ls);
    CompactSorted(SortStrings(ls));
    forall h ensures h in ls <==> Names(xs, h) {
      if Names(xs, h) {
        var i :| 0 <= i < |xs| && Lower(xs[i]) == h;
        assert ls[i] == h;
      }
    }
  }

  lemma SortedLowerSame(xs: seq<string>, ys: seq<string>)
    requires forall h :: Names(xs, h) <==> Names(ys, h)
    ensures SortedLower(xs) == SortedLower(ys)
  {
    SortedLowerMembers(xs);
    SortedLowerMembers(ys);
    StrictStringsUnique(SortedLower(xs), SortedLower(ys));
  }

  method ComputeSortedLower(xs: seq<string>) returns (out: seq<string>)
    ensures out == SortedLower(xs)
  {
    out := [];
    var i := 0;
    while i < |xs|
      invariant 0 <= i <= |xs| && out == LowerAll(xs)[..i]
    {
      out := out + [Lower(xs[i])];
      i := i + 1;
    }
    assert out == LowerAll(xs);
    out := Compact(SortStrings(out));
  }

  // ---- the text ----

  /** The fixed words of the file: what heads a block, its fixed lines, and what precedes an address. */
  datatype Syntax = Syntax(
    banner: string, bannerEnd: string, open: string, before: seq<string>, indent: string, after: seq<string>,
      option: string)

  const BANNER := "# Managed by weft-operator " + "WeftLocalDNSReflector \""
  const BANNER_END := "\". Do not edit."
  const BLOCK_START := ["    errors", "    cache 30", "    hosts {"]
  const BLOCK_END := ["        ttl 30", "        fallthrough", "    }", "    forward . /etc/resolv.conf", "}"]

  const COREFILE := Syntax(BANNER, BANNER_END, ":53 {", BLOCK_START, "        ", BLOCK_END, "ttl")

  function Block(syn: Syntax, ip: string, h: string): seq<string> {
    [h + syn.open] + syn.before + [syn.indent + ip + " " + h] + syn.after
  }

  function Blocks(syn: Syntax, ip: string, hosts: seq<string>): seq<string> {
    if hosts == [] then [] else Blocks(syn, ip, hosts[..|hosts| - 1]) + Block(syn, ip, hosts[|hosts| - 1])
  }

  /** Each line with its newline. */
  function Emit(lines: seq<string>): string {
    if lines == [] then "" else lines[0] + "\n" + Emit(lines[1..])
  }

  lemma {:induction false} EmitAppend(a: seq<string>, b: seq<string>)
    ensures Emit(a + b) == Emit(a) + Emit(b)
  {
    if a == [] {
      assert a + b == b;
    } else {
      EmitAppend(a[1..], b);
      assert (a + b)[1..] == a[1..] + b;
      assert a[0] + "\n" + (Emit(a[1..]) + Emit(b)) == (a[0] + "\n" + Emit(a[1..])) + Emit(b);
    }
  }

  lemma {:induction false} SplitEmit(lines: seq<string>)
    requires NoneContains(lines, '\n')
    ensures Split(Emit(lines), '\n') == lines + [""]
  {
    if lines != [] {
      var rest := Emit(lines[1..]);
      SplitEmit(lines[1..]);
      SplitPrefix(lines[0], "\n" + rest, '\n');
      assert lines[0] + "\n" + rest == lines[0] + ("\n" + rest);
      assert ("\n" + rest)[1..] == rest;
      assert lines[0] + "" == lines[0];
      assert [lines[0]] + (lines[1..] + [""]) == lines + [""];
    }
  }

  datatype Rendering = File(text: string) | NotAnIP | NoHostnames | BadHostname(name: string)

  /** The first name that cannot head a block. */
  function FirstBad(hosts: seq<string>): Option<string> {
    if hosts == [] then None else if !Servable(hosts[0]) then Some(hosts[0]) else FirstBad(hosts[1..])
  }

  /** `ip` is the canonical text of the service address, None when it does not parse. */
  function Rendered(syn: Syntax, name: string, ip: Option<string>, hostnames: seq<string>): Rendering {
    if ip.None? then NotAnIP
    else if hostnames == [] then NoHostnames
    else
      var hosts := SortedLower(hostnames);
      match FirstBad(hosts)
      case Some(h) => BadHostname(h)
      case None => File(Emit([syn.banner + name + syn.bannerEnd] + Blocks(syn, ip.value, hosts)))
  }

  lemma {:induction false} FirstBadNone(hosts: seq<string>)
    ensures FirstBad(hosts).None? <==> forall i :: 0 <= i < |hosts| ==> Servable(hosts[i])
  {
    if hosts != [] {
      FirstBadNone(hosts[1..]);
      assert forall i :: 1 <= i < |hosts| ==> hosts[i] == hosts[1..][i - 1];
      assert forall i :: 0 <= i < |hosts[1..]| ==> hosts[1..][i] == hosts[i + 1];
    }
  }

  /** renderCoreDNS: the builder grows block by block and gives up at the first bad name. */
  method RenderCoreDNS(syn: Syntax, name: string, ip: Option<string>, hostnames: seq<string>) returns (r: Rendering)
    ensures r == Rendered(syn, name, ip, hostnames)
  {
    if ip.None? {
      return NotAnIP;
    }
    if |hostnames| == 0 {
      return NoHostnames;
    }
    var hosts := ComputeSortedLower(hostnames);
    var head := syn.banner + name + syn.bannerEnd;
    var b := Emit([head]);
    var i := 0;
    assert [head] + Blocks(syn, ip.value, hosts[..0]) == [head];
    while i < |hosts|
      invariant 0 <= i <= |hosts| && b == Emit([head] + Blocks(syn, ip.value, hosts[..i]))
      invariant FirstBad(hosts) == FirstBad(hosts[i..])
    {
      if !Servable(hosts[i]) {
        return BadHostname(hosts[i]);
      }
      var block := Block(syn, ip.value, hosts[i]);
      EmitAppend([head] + Blocks(syn, ip.value, hosts[..i]), block);
      assert hosts[..i + 1][..i] == hosts[..i] && hosts[i..][1..] == hosts[i + 1..];
      assert [head] + Blocks(syn, ip.value, hosts[..i]) + block == [head] + (Blocks(syn, ip.value, hosts[..i]) + block);
      b := b + Emit(block);
      i := i + 1;
    }
    assert hosts[..i] == hosts;
    r := File(b);
  }

  /** Rendering succeeds exactly when the address parses and there are names, all of them servable. */
  lemma RenderSucceeds(syn: Syntax, name: string, ip: Option<string>, hostnames: seq<string>)
    ensures Rendered(syn, name, ip, hostnames).File? <==>
            ip.Some? && hostnames != [] && forall h :: Names(hostnames, h) ==> Servable(h)
  {
    var hosts := SortedLower(hostnames);
    SortedLowerMembers(hostnames);
    FirstBadNone(hosts);
    assert forall i :: 0 <= i < |hosts| ==> hosts[i] in hosts;
  }

  // ---- reading it back ----

  datatype Event = Zone(name: string) | Answer(ip: string, host: string)

  /** One line, read on its own: the head of a server block, an address of the hosts plugin, or neither. */
  function EventOf(syn: Syntax, l: string): seq<Event> {
    if HasSuffix(l, syn.open) then [Zone(l[..|l| - |syn.open|])]
    else if HasPrefix(l, syn.indent) then
      var fields := Split(l[|syn.indent|..], ' ');
      if |fields| == 2 && fields[0] != syn.option then [Answer(fields[0], fields[1])] else []
    else []
  }

  function Events(syn: Syntax, lines: seq<string>): seq<Event> {
    if lines == [] then [] else EventOf(syn, lines[0]) + Events(syn, lines[1..])
  }

  function ReadBack(syn: Syntax, text: string): seq<Event> { Events(syn, Split(text, '\n')) }

  /** Each host heads a block that answers with the address. */
  function Expected(ip: string, hosts: seq<string>): seq<Event> {
    if hosts == [] then []
      else Expected(ip, hosts[..|hosts| - 1]) + [Zone(hosts[|hosts| - 1]), Answer(ip, hosts[|hosts| - 1])]
  }

  ghost predicate Inert(syn: Syntax, lines: seq<string>) { Events(syn, lines) == [] && NoneContains(lines, '\n') }

  ghost predicate PlainMarks(syn: Syntax) {
    && '\n' !in syn.open && '\n' !in syn.indent && syn.open != "" && syn.indent != ""
    && !IsNameChar(syn.open[|syn.open| - 1])
  }

  ghost predicate PlainBanner(syn: Syntax) {
    && '\n' !in syn.banner && '\n' !in syn.bannerEnd && syn.banner != "" && syn.bannerEnd != ""
    && (syn.indent != "" ==> syn.banner[0] != syn.indent[0])
    && (syn.open != "" ==> syn.bannerEnd[|syn.bannerEnd| - 1] != syn.open[|syn.open| - 1])
  }

  /** Fixed lines say nothing, and neither they nor names are mistaken for marks. */
  ghost predicate Readable(syn: Syntax) {
    Inert(syn, syn.before) && Inert(syn, syn.after) && Events(syn, [""]) == [] && PlainMarks(syn) && PlainBanner(syn)
  }

  predicate IsNameChar(c: char) { IsAlphanumeric(c) || c == '-' || c == '.' }

  lemma {:induction false} EventsAppend(syn: Syntax, a: seq<string>, b: seq<string>)
    ensures Events(syn, a + b) == Events(syn, a) + Events(syn, b)
  {
    if a == [] {
      assert a + b == b;
    } else {
      EventsAppend(syn, a[1..], b);
      assert (a + b)[1..] == a[1..] + b;
      assert EventOf(syn, a[0]) + (Events(syn, a[1..]) + Events(syn, b)) ==
        (EventOf(syn, a[0]) + Events(syn, a[1..])) + Events(syn, b);
    }
  }

  lemma EventsOne(syn: Syntax, l: string)
    ensures Events(syn, [l]) == EventOf(syn, l)
  {
    assert [l][1..] == [];
    assert EventOf(syn, l) + [] == EventOf(syn, l);
  }

  /** An address as the operator renders it. */
  ghost predicate PlainAddress(syn: Syntax, ip: string) { ' ' !in ip && '\n' !in ip && ip != syn.option }

  lemma AddressLine(syn: Syntax, ip: string, h: string)
    requires PlainMarks(syn) && PlainAddress(syn, ip) && Servable(h)
    ensures EventOf(syn, syn.indent + ip + " " + h) == [Answer(ip, h)]
    ensures '\n' !in syn.indent + ip + " " + h
  {
    var l := syn.indent + ip + " " + h;
    ServableChars(h);
    assert l[|l| - 1] == h[|h| - 1];
    NotSuffix(l, syn.open, |syn.open| - 1);
    TwoFields(ip, h);
    assert l[|syn.indent|..] == ip + (" " + h);
  }

  lemma TwoFields(a: string, b: string)
    requires ' ' !in a && ' ' !in b
    ensures Split(a + (" " + b), ' ') == [a, b]
  {
    SplitPrefix(a, " " + b, ' ');
    assert (" " + b)[1..] == b && a + "" == a;
    SplitPrefix(b, "", ' ');
    assert b + "" == b;
  }

  lemma HeadLine(syn: Syntax, h: string)
    requires PlainMarks(syn) && Servable(h)
    ensures EventOf(syn, h + syn.open) == [Zone(h)] && '\n' !in h + syn.open
  {
    var l := h + syn.open;
    ServableChars(h);
    assert l[|l| - |syn.open|..] == syn.open && l[..|l| - |syn.open|] == h;
  }

  lemma NoneContainsAppend(a: seq<string>, b: seq<string>, c: char)
    requires NoneContains(a, c) && NoneContains(b, c)
    ensures NoneContains(a + b, c)
  {
  }

  lemma EventsOfFour(syn: Syntax, a: seq<string>, b: seq<string>, c: seq<string>, d: seq<string>)
    ensures Events(syn, a + b + c + d) == Events(syn, a) + Events(syn, b) + Events(syn, c) + Events(syn, d)
  {
    EventsAppend(syn, a, b);
    EventsAppend(syn, a + b, c);
    EventsAppend(syn, a + b + c, d);
  }

  lemma BlockReads(syn: Syntax, ip: string, h: string)
    requires Readable(syn) && PlainAddress(syn, ip) && Servable(h)
    ensures Events(syn, Block(syn, ip, h)) == [Zone(h), Answer(ip, h)]
  {
    var head, addr := h + syn.open, syn.indent + ip + " " + h;
    HeadLine(syn, h);
    AddressLine(syn, ip, h);
    EventsOne(syn, head);
    EventsOne(syn, addr);
    EventsOfFour(syn, [head], syn.before, [addr], syn.after);
  }

  lemma BlockIsLines(syn: Syntax, ip: string, h: string)
    requires Readable(syn) && PlainAddress(syn, ip) && Servable(h)
    ensures NoneContains(Block(syn, ip, h), '\n')
  {
    var head, addr := h + syn.open, syn.indent + ip + " " + h;
    HeadLine(syn, h);
    AddressLine(syn, ip, h);
    NoneContainsAppend([head], syn.before, '\n');
    NoneContainsAppend([head] + syn.before, [addr], '\n');
    NoneContainsAppend([head] + syn.before + [addr], syn.after, '\n');
  }

  lemma {:induction false} BlocksRead(syn: Syntax, ip: string, hosts: seq<string>)
    requires Readable(syn) && PlainAddress(syn, ip) && forall i :: 0 <= i < |hosts| ==> Servable(hosts[i])
    ensures Events(syn, Blocks(syn, ip, hosts)) == Expected(ip, hosts) && NoneContains(Blocks(syn, ip, hosts), '\n')
  {
    if hosts != [] {
      var n := |hosts| - 1;
      BlocksRead(syn, ip, hosts[..n]);
      BlockReads(syn, ip, hosts[n]);
      BlockIsLines(syn, ip, hosts[n]);
      EventsAppend(syn, Blocks(syn, ip, hosts[..n]), Block(syn, ip, hosts[n]));
      NoneContainsAppend(Blocks(syn, ip, hosts[..n]), Block(syn, ip, hosts[n]), '\n');
    }
  }

  lemma BannerReads(syn: Syntax, name: string)
    requires Readable(syn) && '\n' !in name
    ensures Events(syn, [syn.banner + name + syn.bannerEnd]) == [] && '\n' !in syn.banner + name + syn.bannerEnd
  {
    var l := syn.banner + name + syn.bannerEnd;
    EventsOne(syn, l);
    assert l[0] == syn.banner[0];
    NotPrefix(l, syn.indent, 0);
    assert l[|l| - 1] == syn.bannerEnd[|syn.bannerEnd| - 1];
    NotSuffix(l, syn.open, |syn.open| - 1);
  }

  /** Round trip: reading the rendered text gives the sorted names, each once, all at the address. */
  lemma RenderRoundTrip(syn: Syntax, name: string, ip: Option<string>, hostnames: seq<string>)
    requires Readable(syn) && '\n' !in name && ip.Some? && PlainAddress(syn, ip.value)
    requires Rendered(syn, name, ip, hostnames).File?
    ensures ReadBack(syn, Rendered(syn, name, ip, hostnames).text) == Expected(ip.value, SortedLower(hostnames))
    ensures Rendered(syn, name, ip, hostnames).text != ""
  {
    var hosts := SortedLower(hostnames);
    FirstBadNone(hosts);
    var head, blocks := syn.banner + name + syn.bannerEnd, Blocks(syn, ip.value, hosts);
    BannerReads(syn, name);
    BlocksRead(syn, ip.value, hosts);
    NoneContainsAppend([head], blocks, '\n');
    SplitEmit([head] + blocks);
    EventsAppend(syn, [head] + blocks, [""]);
    EventsAppend(syn, [head], blocks);
  }

  lemma {:induction false} ExpectedZones(ip: string, hosts: seq<string>)
    ensures forall h :: Zone(h) in Expected(ip, hosts) <==> h in hosts
    ensures forall a, h :: Answer(a, h) in Expected(ip, hosts) <==> a == ip && h in hosts
  {
    if hosts != [] {
      var n := |hosts| - 1;
      ExpectedZones(ip, hosts[..n]);
      assert hosts == hosts[..n] + [hosts[n]];
    }
  }

  ghost predicate Quiet(syn: Syntax, l: string) { EventOf(syn, l) == [] && '\n' !in l }

  lemma {:induction false} QuietLines(syn: Syntax, lines: seq<string>)
    requires forall i :: 0 <= i < |lines| ==> Quiet(syn, lines[i])
    ensures Inert(syn, lines)
  {
    if lines != [] {
      QuietLines(syn, lines[1..]);
      assert Quiet(syn, lines[0]);
    }
  }

  /** A line whose ending and beginning each differ somewhere from the marks. */
  lemma OtherLine(syn: Syntax, l: string, j: nat, k: nat)
    requires j < |syn.open| && (|l| < |syn.open| || l[|l| - |syn.open| + j] != syn.open[j])
    requires k < |syn.indent| && (|l| <= k || l[k] != syn.indent[k])
    ensures EventOf(syn, l) == []
  {
    NotSuffix(l, syn.open, j);
    NotPrefix(l, syn.indent, k);
  }

  /** An indented line that is one word. */
  lemma WordLine(syn: Syntax, l: string)
    requires forall i :: |syn.indent| <= i < |l| ==> l[i] != ' '
    requires syn.open != "" && l != "" && l[|l| - 1] != syn.open[|syn.open| - 1]
    ensures EventOf(syn, l) == []
  {
    NotSuffix(l, syn.open, |syn.open| - 1);
    if HasPrefix(l, syn.indent) {
      var word := l[|syn.indent|..];
      assert ' ' !in word;
      SplitPrefix(word, "", ' ');
      assert word + "" == word;
    }
  }

  /** An option with its argument. */
  lemma OptionLine(syn: Syntax, arg: string, l: string)
    requires ' ' !in syn.option && l == syn.indent + syn.option + " " + arg
    requires syn.open != "" && l[|l| - 1] != syn.open[|syn.open| - 1]
    ensures EventOf(syn, l) == []
  {
    NotSuffix(l, syn.open, |syn.open| - 1);
    assert l[|syn.indent|..] == syn.option + (" " + arg);
    SplitPrefix(syn.option, " " + arg, ' ');
    assert (" " + arg)[1..] == arg && syn.option + "" == syn.option;
  }

  ghost predicate CorefileMarks(syn: Syntax) { syn.open == ":53 {" && syn.indent == "        " && syn.option == "ttl" }

  lemma QuietErrors(syn: Syntax)
    requires CorefileMarks(syn)
    ensures Quiet(syn, "    errors") && Quiet(syn, "    cache 30")
  {
    OtherLine(syn, "    errors", 4, 4);
    OtherLine(syn, "    cache 30", 4, 4);
  }

  lemma QuietHosts(syn: Syntax)
    requires CorefileMarks(syn)
    ensures Quiet(syn, "    hosts {") && Quiet(syn, "    }") && Quiet(syn, "}") && Quiet(syn, "")
  {
    OtherLine(syn, "    hosts {", 0, 4);
    OtherLine(syn, "    }", 4, 4);
    OtherLine(syn, "}", 4, 0);
    OtherLine(syn, "", 0, 0);
  }

  lemma QuietForward(syn: Syntax)
    requires CorefileMarks(syn)
    ensures Quiet(syn, "    forward . /etc/resolv.conf")
  {
    OtherLine(syn, "    forward . /etc/resolv.conf", 4, 4);
  }

  lemma QuietFallthrough(syn: Syntax)
    requires CorefileMarks(syn)
    ensures Quiet(syn, "        fallthrough")
  {
    WordLine(syn, "        fallthrough");
  }

  lemma QuietTTL(syn: Syntax)
    requires CorefileMarks(syn)
    ensures Quiet(syn, "        ttl 30")
  {
    OptionLine(syn, "30", "        ttl 30");
  }

  /** The lines between the head of a block and its address, and those after. */
  lemma CorefileLines(syn: Syntax)
    requires CorefileMarks(syn)
    ensures Inert(syn, BLOCK_START) && Inert(syn, BLOCK_END) && Events(syn, [""]) == []
  {
    QuietErrors(syn);
    QuietHosts(syn);
    QuietForward(syn);
    QuietFallthrough(syn);
    QuietTTL(syn);
    QuietThree(syn, "    errors", "    cache 30", "    hosts {");
    QuietFive(syn, "        ttl 30", "        fallthrough", "    }", "    forward . /etc/resolv.conf", "}");
    EventsOne(syn, "");
  }

  lemma QuietThree(syn: Syntax, a: string, b: string, c: string)
    requires Quiet(syn, a) && Quiet(syn, b) && Quiet(syn, c)
    ensures Inert(syn, [a, b, c])
  {
    QuietLines(syn, [a, b, c]);
  }

  lemma QuietFive(syn: Syntax, a: string, b: string, c: string, d: string, e: string)
    requires Quiet(syn, a) && Quiet(syn, b) && Quiet(syn, c) && Quiet(syn, d) && Quiet(syn, e)
    ensures Inert(syn, [a, b, c, d, e])
  {
    QuietLines(syn, [a, b, c, d, e]);
  }

  lemma CorefileBanner(syn: Syntax)
    requires CorefileMarks(syn) && syn.banner == BANNER && syn.bannerEnd == BANNER_END
    ensures PlainBanner(syn)
  {
  }

  lemma CorefilePlain(syn: Syntax)
    requires CorefileMarks(syn)
    ensures PlainMarks(syn)
  {
  }

  lemma ReadableParts(syn: Syntax)
    requires CorefileMarks(syn) && syn.banner == BANNER && syn.bannerEnd == BANNER_END && syn.before == BLOCK_START
        && syn.after == BLOCK_END
    ensures Readable(syn)
  {
    CorefileLines(syn);
    CorefileBanner(syn);
    CorefilePlain(syn);
  }

  /** The file's own words can be told apart. */
  lemma CorefileIsReadable()
    ensures Readable(COREFILE)
  {
    ReadableParts(COREFILE);
  }

  /** One server block, line by line, as the Corefile import will see it. */
  lemma BlockSpelled(ip: string, h: string)
    ensures Block(COREFILE, ip, h) ==
            [h + ":53 {"] + ["    errors", "    cache 30", "    hosts {"] + ["        " + ip + " " + h]
            + ["        ttl 30", "        fallthrough", "    }", "    forward . /etc/resolv.conf", "}"]
  {
  }

  // ---- the shared ConfigMap ----

  /** One key of the ConfigMap set or removed; None is a ConfigMap that does not exist. */
  function Synced(cm: Option<map<string, string>>, key: string, content: string): Option<map<string, string>> {
    match cm
    case None => if content == "" then None else Some(map[key := content])
    case Some(data) => Some(if content == "" then data - {key} else data[key := content])
  }

  class CustomConfigMap {
    var data: Option<map<string, string>>

    /** syncCoreDNS: nothing is written when the key is already right; says whether the key is there. */
    method Sync(key: string, content: string) returns (present: bool)
      modifies this
      ensures data == Synced(old(data), key, content) && present == (content != "")
    {
      if data.None? {
        if content == "" {
          return false;
        }
        data := Some(map[key := content]);
        return true;
      }
      var was := key in data.value;
      if content == "" && !was {
        assert data.value - {key} == data.value;
        return false;
      }
      if content != "" && was && data.value[key] == content {
        assert data.value[key := content] == data.value;
        return true;
      }
      if content == "" {
        data := Some(data.value - {key});
      } else {
        data := Some(data.value[key := content]);
      }
      present := content != "";
    }
  }
}
