/** internal/controller/weftgateway/reconciler.go: header filters as a URL fragment, and reading it back. */
module Fragment {
  import opened Text
  import opened Api

  // ---- percent-encoding, section 2.1 of RFC 3986 ----

  function HexDigit(n: nat): char
    requires n < 16
  {
    if n < 10 then (n + '0' as int) as char else (n - 10 + 'A' as int) as char
  }

  function HexValue(c: char): Option<nat> {
    if '0' <= c <= '9' then Some(c as int - '0' as int)
    else if 'A' <= c <= 'F' then Some(c as int - 'A' as int + 10)
    else if 'a' <= c <= 'f' then Some(c as int - 'a' as int + 10)
    else None
  }

  /** url.PathEscape leaves letters, digits and these as they are. */
  predicate PathSafe(c: char) {
    'a' <= c <= 'z' || 'A' <= c <= 'Z' || '0' <= c <= '9' || c in {'-', '_', '.', '~', '$', '&', '+', ':', '=', '@'}
  }

  function EscapeByte(c: char): string {
    if PathSafe(c) then [c] else ['%', HexDigit(c as int / 16 % 16), HexDigit(c as int % 16)]
  }

  function PathEscape(s: string): string { if s == [] then "" else EscapeByte(s[0]) + PathEscape(s[1..]) }

  /** What url.Parse makes of a fragment; None where a `%` is not followed by two hex digits. */
  function Decode(s: string): Option<string> {
    if s == [] then Some("")
    else if s[0] != '%' then Prepend(s[0], Decode(s[1..]))
    else if |s| >= 3 && HexValue(s[1]).Some? && HexValue(s[2]).Some? then
      Prepend((HexValue(s[1]).value * 16 + HexValue(s[2]).value) as char, Decode(s[3..]))
    else None
  }

  function Prepend(c: char, rest: Option<string>): Option<string> {
    if rest.None? then None else Some([c] + rest.value)
  }

  ghost predicate IsBytes(s: string) { forall i :: 0 <= i < |s| ==> s[i] as int < 256 }

  lemma HexRoundTrip(n: nat)
    requires n < 16
    ensures HexValue(HexDigit(n)) == Some(n)
  {
  }

  /** `p` in front of a decoded rest. */
  function Before(p: string, rest: Option<string>): Option<string> {
    if rest.None? then None else Some(p + rest.value)
  }

  lemma BeforeStep(p: string, rest: Option<string>)
    requires p != ""
    ensures Before(p, rest) == Prepend(p[0], Before(p[1..], rest))
  {
    if rest.Some? { assert [p[0]] + (p[1..] + rest.value) == p + rest.value; }
  }

  lemma BeforeTwice(a: string, b: string, rest: Option<string>)
    ensures Before(a + b, rest) == Before(a, Before(b, rest))
  {
    if rest.Some? { assert a + b + rest.value == a + (b + rest.value); }
  }

  lemma DecodeByte(c: char, tail: string)
    requires c as int < 256
    ensures Decode(EscapeByte(c) + tail) == Prepend(c, Decode(tail))
  {
    var s := EscapeByte(c) + tail;
    if PathSafe(c) {
      assert s[0] == c && s[1..] == tail;
    } else {
      var hi, lo := c as int / 16 % 16, c as int % 16;
      HexRoundTrip(hi);
      HexRoundTrip(lo);
      assert s[0] == '%' && s[1] == HexDigit(hi) && s[2] == HexDigit(lo) && s[3..] == tail;
      assert hi * 16 + lo == c as int;
    }
  }

  lemma {:induction false} DecodeEscaped(v: string, rest: string)
    requires IsBytes(v)
    ensures Decode(PathEscape(v) + rest) == Before(v, Decode(rest))
  {
    if v == [] {
      assert PathEscape(v) + rest == rest;
      assert Decode(rest).Some? ==> v + Decode(rest).value == Decode(rest).value;
    } else {
      DecodeEscaped(v[1..], rest);
      DecodeByte(v[0], PathEscape(v[1..]) + rest);
      assert PathEscape(v) + rest == EscapeByte(v[0]) + (PathEscape(v[1..]) + rest);
      BeforeStep(v, Decode(rest));
    }
  }

  lemma {:induction false} DecodePlain(p: string, rest: string)
    requires '%' !in p
    ensures Decode(p + rest) == Before(p, Decode(rest))
  {
    if p == [] {
      assert p + rest == rest;
      assert Decode(rest).Some? ==> p + Decode(rest).value == Decode(rest).value;
    } else {
      DecodePlain(p[1..], rest);
      assert (p + rest)[0] == p[0] && (p + rest)[1..] == p[1..] + rest;
      BeforeStep(p, Decode(rest));
    }
  }

  // ---- httpFiltersToFragment ----

  datatype Op = Set(name: string, value: string) | Add(name: string, value: string) | Remove(name: string)

  datatype Header = Header(name: string, value: string)

  datatype Filter = RequestHeaderModifier(sets: seq<Header>, adds: seq<Header>, removes: seq<string>) | OtherFilter

  const DEL := "!del"

  /** The operator's part for one operation. */
  function Part(op: Op): string {
    match op
    case Set(n, v) => n + "=" + PathEscape(v)
    case Add(n, v) => n + "=+" + PathEscape(v)
    case Remove(n) => n + "=" + DEL
  }

  /** The same with the value as it is. */
  function RawPart(op: Op): string {
    match op
    case Set(n, v) => n + "=" + v
    case Add(n, v) => n + "=+" + v
    case Remove(n) => n + "=" + DEL
  }

  function Parts(ops: seq<Op>): seq<string> { seq(|ops|, i requires 0 <= i < |ops| => Part(ops[i])) }

  function RawParts(ops: seq<Op>): seq<string> { seq(|ops|, i requires 0 <= i < |ops| => RawPart(ops[i])) }

  function FilterOps(f: Filter): seq<Op> {
    match f
    case OtherFilter => []
    case RequestHeaderModifier(sets, adds, removes) =>
      seq(|sets|, i requires 0 <= i < |sets| => Set(sets[i].name, sets[i].value))
      + seq(|adds|, i requires 0 <= i < |adds| => Add(adds[i].name, adds[i].value))
      + seq(|removes|, i requires 0 <= i < |removes| => Remove(removes[i]))
  }

  function Ops(fs: seq<Filter>): seq<Op> {
    if fs == [] then [] else Ops(fs[..|fs| - 1]) + FilterOps(fs[|fs| - 1])
  }

  function Emitted(ops: seq<Op>): string { if ops == [] then "" else "/#" + Join(Parts(ops), "&") }

  method FilterParts(f: Filter) returns (parts: seq<string>)
    ensures parts == Parts(FilterOps(f))
  {
    parts := [];
    if f.OtherFilter? {
      return;
    }
    var i := 0;
    while i < |f.sets|
      invariant 0 <= i <= |f.sets| && parts == Parts(FilterOps(f)[..i])
    {
      assert FilterOps(f)[i] == Set(f.sets[i].name, f.sets[i].value);
      parts := parts + [f.sets[i].name + "=" + PathEscape(f.sets[i].value)];
      i := i + 1;
    }
    i := 0;
    while i < |f.adds|
      invariant 0 <= i <= |f.adds| && parts == Parts(FilterOps(f)[..|f.sets| + i])
    {
      assert FilterOps(f)[|f.sets| + i] == Add(f.adds[i].name, f.adds[i].value);
      parts := parts + [f.adds[i].name + "=+" + PathEscape(f.adds[i].value)];
      i := i + 1;
    }
    i := 0;
    while i < |f.removes|
      invariant 0 <= i <= |f.removes| && parts == Parts(FilterOps(f)[..|f.sets| + |f.adds| + i])
    {
      assert FilterOps(f)[|f.sets| + |f.adds| + i] == Remove(f.removes[i]);
      parts := parts + [f.removes[i] + "=" + DEL];
      i := i + 1;
    }
    assert FilterOps(f)[..|f.sets| + |f.adds| + i] == FilterOps(f);
  }

  lemma PartsAppend(a: seq<Op>, b: seq<Op>)
    ensures Parts(a + b) == Parts(a) + Parts(b)
  {
  }

  method CollectParts(fs: seq<Filter>) returns (parts: seq<string>)
    ensures parts == Parts(Ops(fs))
  {
    parts := [];
    var i := 0;
    while i < |fs|
      invariant 0 <= i <= |fs| && parts == Parts(Ops(fs[..i]))
    {
      assert fs[..i + 1][..i] == fs[..i];
      var more := FilterParts(fs[i]);
      PartsAppend(Ops(fs[..i]), FilterOps(fs[i]));
      parts := parts + more;
      i := i + 1;
    }
    assert fs[..i] == fs;
  }

  method HttpFiltersToFragment(fs: seq<Filter>) returns (r: string)
    ensures r == Emitted(Ops(fs))
  {
    var parts := CollectParts(fs);
    if |parts| == 0 {
      return "";
    }
    r := "/#" + Join(parts, "&");
  }

  // ---- decoding gives the raw parts ----

  ghost predicate PlainNames(ops: seq<Op>) {
    forall i :: 0 <= i < |ops| ==> '%' !in ops[i].name && '&' !in ops[i].name && '=' !in ops[i].name
  }

  ghost predicate ByteValues(ops: seq<Op>) {
    forall i :: 0 <= i < |ops| ==> (ops[i].Remove? || IsBytes(ops[i].value))
  }

  lemma DecodeValued(head: string, v: string, rest: string)
    requires '%' !in head && IsBytes(v)
    ensures Decode(head + PathEscape(v) + rest) == Before(head + v, Decode(rest))
  {
    var e := PathEscape(v);
    DecodeEscaped(v, rest);
    DecodePlain(head, e + rest);
    assert head + e + rest == head + (e + rest);
    BeforeTwice(head, v, Decode(rest));
  }

  lemma DecodePart(op: Op, rest: string)
    requires '%' !in op.name && (op.Remove? || IsBytes(op.value))
    ensures Decode(Part(op) + rest) == Before(RawPart(op), Decode(rest))
  {
    match op
    case Set(n, v) => DecodeValued(n + "=", v, rest);
    case Add(n, v) => DecodeValued(n + "=+", v, rest);
    case Remove(n) => DecodePlain(n + "=" + DEL, rest);
  }

  lemma DecodeGlued(part: string, raw: string, rest: string)
    requires Decode(part + ("&" + rest)) == Before(raw, Decode("&" + rest)) && Decode(rest).Some?
    ensures Decode(part + "&" + rest) == Some(raw + "&" + Decode(rest).value)
  {
    DecodePlain("&", rest);
    assert part + "&" + rest == part + ("&" + rest);
    BeforeTwice(raw, "&", Decode(rest));
  }

  lemma DecodeJoined(op: Op, rest: string)
    requires '%' !in op.name && (op.Remove? || IsBytes(op.value)) && Decode(rest).Some?
    ensures Decode(Part(op) + "&" + rest) == Some(RawPart(op) + "&" + Decode(rest).value)
  {
    DecodePart(op, "&" + rest);
    DecodeGlued(Part(op), RawPart(op), rest);
  }

  /** Percent-decoding the fragment yields the raw parts, joined. */
  lemma {:induction false} DecodedIsRaw(ops: seq<Op>)
    requires PlainNames(ops) && ByteValues(ops)
    ensures Decode(Join(Parts(ops), "&")) == Some(Join(RawParts(ops), "&"))
  {
    if |ops| == 1 {
      DecodePart(ops[0], "");
      assert Part(ops[0]) + "" == Part(ops[0]) && RawPart(ops[0]) + "" == RawPart(ops[0]);
    } else if ops != [] {
      DecodedIsRaw(ops[1..]);
      assert Parts(ops)[1..] == Parts(ops[1..]) && RawParts(ops)[1..] == RawParts(ops[1..]);
      DecodeJoined(ops[0], Join(Parts(ops[1..]), "&"));
    }
  }

  // ---- reading it back ----

  /** What a part says, once decoded: `name=!del`, `name=+value` or `name=value`. */
  function ReadPart(part: string): Option<Op> {
    var fields := Split(part, '=');
    if |fields| != 2 then None
    else if fields[1] == DEL then Some(Remove(fields[0]))
    else if HasPrefix(fields[1], "+") then Some(Add(fields[0], fields[1][1..]))
    else Some(Set(fields[0], fields[1]))
  }

  function ReadParts(parts: seq<string>): Option<seq<Op>> {
    if parts == [] then Some([])
    else
      var op, rest := ReadPart(parts[0]), ReadParts(parts[1..]);
      if op.None? || rest.None? then None else Some([op.value] + rest.value)
  }

  /** The reader's side: no fragment is no operation; else decode what follows `/#` and split it. */
  function ReadBack(text: string): Option<seq<Op>> {
    if text == "" then Some([])
    else if !HasPrefix(text, "/#") then None
    else
      var decoded := Decode(text[2..]);
      if decoded.None? then None else ReadParts(Split(decoded.value, '&'))
  }

  /** A value the syntax can carry. */
  predicate Carriable(op: Op) {
    match op
    case Set(_, v) => '&' !in v && '=' !in v && !HasPrefix(v, "+") && v != DEL
    case Add(_, v) => '&' !in v && '=' !in v
    case Remove(_) => true
  }

  lemma {:induction false} SplitCount(p: string, c: char)
    ensures |Split(p, c)| == 1 <==> c !in p
  {
    if p != [] { SplitCount(p[1..], c); }
  }

  /** A joined list splits into as many pieces as it had exactly when no part holds the separator. */
  lemma {:induction false} SplitJoinCount(parts: seq<string>, c: char)
    requires parts != []
    ensures |Split(Join(parts, [c]), c)| >= |parts|
    ensures |Split(Join(parts, [c]), c)| == |parts| <==> NoneContains(parts, c)
  {
    SplitCount(parts[0], c);
    if |parts| > 1 {
      SplitJoinCount(parts[1..], c);
      SplitAround(parts[0], Join(parts[1..], [c]), c);
      assert parts[0] + [c] + Join(parts[1..], [c]) == parts[0] + ([c] + Join(parts[1..], [c]));
      assert NoneContains(parts, c) <==> c !in parts[0] && NoneContains(parts[1..], c) by {
        assert parts == [parts[0]] + parts[1..];
      }
    }
  }

  lemma {:induction false} ReadPartsEach(parts: seq<string>, ops: seq<Op>)
    ensures ReadParts(parts) == Some(ops) <==>
        |parts| == |ops| && forall i :: 0 <= i < |ops| ==> ReadPart(parts[i]) == Some(ops[i])
    ensures ReadParts(parts).Some? ==> |ReadParts(parts).value| == |parts|
  {
    if parts != [] {
      if ops == [] {
        ReadPartsEach(parts[1..], []);
      } else {
        ReadPartsEach(parts[1..], ops[1..]);
        assert ops == [ops[0]] + ops[1..];
        assert forall i :: 1 <= i < |ops| && |parts| == |ops| ==>
          ops[i] == ops[1..][i - 1] && parts[i] == parts[1..][i - 1];
        assert forall i :: 0 <= i < |ops[1..]| && |parts| == |ops| ==>
          ops[1..][i] == ops[i + 1] && parts[1..][i] == parts[i + 1];
      }
    }
  }

  /** The part of one operation, with what stands after its `=`. */
  function Payload(op: Op): string {
    match op
    case Set(_, v) => v
    case Add(_, v) => "+" + v
    case Remove(_) => DEL
  }

  lemma FieldsOf(name: string, v: string)
    requires '=' !in name
    ensures Split(name + "=" + v, '=') == [name] + Split(v, '=')
  {
    SplitAround(name, v, '=');
    SplitPrefix(name, "", '=');
    assert name + "" == name;
    assert name + "=" + v == name + (['='] + v);
  }

  lemma PartText(op: Op)
    ensures RawPart(op) == op.name + "=" + Payload(op)
    ensures op.Remove? ==> RawPart(op) == op.name + "=!del"
  {
    if op.Add? { assert op.name + "=+" + op.value == op.name + "=" + ("+" + op.value); }
  }

  lemma FieldsOfPart(op: Op)
    requires '=' !in op.name
    ensures Split(RawPart(op), '=') == [op.name] + Split(Payload(op), '=')
  {
    PartText(op);
    FieldsOf(op.name, Payload(op));
  }

  /** Without ampersands, a part reads back as its operation exactly when the operation can be carried. */
  lemma PartReadsBack(op: Op)
    requires '=' !in op.name && '&' !in RawPart(op)
    ensures ReadPart(RawPart(op)) == Some(op) <==> Carriable(op)
  {
    var v := Payload(op);
    FieldsOfPart(op);
    SplitCount(v, '=');
    if '=' !in v {
      SplitPrefix(v, "", '=');
      assert v + "" == v;
    }
    if op.Add? {
      assert v[0] == '+' && v[1..] == op.value;
      assert '=' in op.value <==> '=' in v;
      assert '&' !in op.value by { assert forall i :: 0 <= i < |op.value| ==> op.value[i] in RawPart(op); }
    }
    if op.Set? {
      assert '&' !in op.value by { assert forall i :: 0 <= i < |op.value| ==> op.value[i] in RawPart(op); }
    }
  }

  lemma AmpersandIsInValue(op: Op)
    requires '&' !in op.name && '&' in RawPart(op)
    ensures !Carriable(op)
  {
    var i :| 0 <= i < |RawPart(op)| && RawPart(op)[i] == '&';
    assert !op.Remove? ==> RawPart(op)[i] in op.value;
  }

  lemma PlainReadsBack(ops: seq<Op>)
    requires PlainNames(ops) && NoneContains(RawParts(ops), '&')
    ensures ReadParts(RawParts(ops)) == Some(ops) <==> forall i :: 0 <= i < |ops| ==> Carriable(ops[i])
  {
    ReadPartsEach(RawParts(ops), ops);
    forall i | 0 <= i < |ops| ensures ReadPart(RawParts(ops)[i]) == Some(ops[i]) <==> Carriable(ops[i]) {
      assert '&' !in RawParts(ops)[i];
      PartReadsBack(ops[i]);
    }
  }

  lemma JoinedReadsBack(ops: seq<Op>)
    requires ops != [] && PlainNames(ops)
    ensures ReadParts(Split(Join(RawParts(ops), "&"), '&')) == Some(ops) <==>
        forall i :: 0 <= i < |ops| ==> Carriable(ops[i])
  {
    var raw := RawParts(ops);
    var pieces := Split(Join(raw, ['&']), '&');
    SplitJoinCount(raw, '&');
    if NoneContains(raw, '&') {
      SplitJoin(raw, '&');
      PlainReadsBack(ops);
    } else {
      ReadPartsEach(pieces, ops);
      var i :| 0 <= i < |raw| && '&' in raw[i];
      AmpersandIsInValue(ops[i]);
    }
  }

  /**
   * Header filter round trip. The fragment gives back the exact ordered list of operations
   * exactly when every operation can be carried: values free of `&` and `=`, and set values that
   * neither start with `+` nor are `!del`.
   */
  lemma FragmentRoundTrip(ops: seq<Op>)
    requires PlainNames(ops) && ByteValues(ops)
    ensures ReadBack(Emitted(ops)) == Some(ops) <==> forall i :: 0 <= i < |ops| ==> Carriable(ops[i])
  {
    if ops != [] {
      var text := Join(Parts(ops), "&");
      assert ("/#" + text)[2..] == text && ("/#" + text)[..2] == "/#";
      DecodedIsRaw(ops);
      JoinedReadsBack(ops);
    }
  }

  /** Escaping leaves only letters, digits and these signs. */
  lemma {:induction false} EscapedIsSafe(v: string, i: nat)
    requires i < |PathEscape(v)|
    ensures var c := PathEscape(v)[i];
            'a' <= c <= 'z' || 'A' <= c <= 'Z' || '0' <= c <= '9' || c in "-_.~$&+:=@%"
  {
    var head := EscapeByte(v[0]);
    if i >= |head| { EscapedIsSafe(v[1..], i - |head|); }
  }

  /** The sets, then the adds, then the removes of a filter. */
  ghost predicate AreOpsOf(f: Filter, ops: seq<Op>)
    requires f.RequestHeaderModifier?
  {
    var m, n := |f.sets|, |f.sets| + |f.adds|;
    && |ops| == n + |f.removes|
    && (forall i :: 0 <= i < m ==> ops[i] == Set(f.sets[i].name, f.sets[i].value))
    && (forall i :: m <= i < n ==> ops[i] == Add(f.adds[i - m].name, f.adds[i - m].value))
    && (forall i :: n <= i < |ops| ==> ops[i] == Remove(f.removes[i - n]))
  }

  /** The operations one filter gives: none unless it modifies headers. */
  ghost predicate OwnOps(f: Filter, ops: seq<Op>) { if f.OtherFilter? then ops == [] else AreOpsOf(f, ops) }

  lemma OwnOpsUnique(f: Filter, ops: seq<Op>)
    requires OwnOps(f, ops)
    ensures FilterOps(f) == ops
  {
  }

  /** Filter after filter, the operations each gives. */
  ghost predicate AreOpsOfAll(fs: seq<Filter>, ops: seq<Op>) {
    if fs == [] then ops == []
    else exists k :: 0 <= k <= |ops| && AreOpsOfAll(fs[..|fs| - 1], ops[..k]) && OwnOps(fs[|fs| - 1], ops[k..])
  }

  lemma {:induction false} AllOpsUnique(fs: seq<Filter>, ops: seq<Op>)
    requires AreOpsOfAll(fs, ops)
    ensures Ops(fs) == ops
  {
    if fs != [] {
      var init, last := fs[..|fs| - 1], fs[|fs| - 1];
      var k :| 0 <= k <= |ops| && AreOpsOfAll(init, ops[..k]) && OwnOps(last, ops[k..]);
      AllOpsUnique(init, ops[..k]);
      OwnOpsUnique(last, ops[k..]);
      assert ops == ops[..k] + ops[k..];
    }
  }

  /**
   * From the filters of a rule to the reader: what is read back are, filter after filter, the sets, adds and
   * removes, each with its own name and value, exactly when every one can be carried.
   */
  lemma FiltersRoundTrip(fs: seq<Filter>, ops: seq<Op>)
    requires AreOpsOfAll(fs, ops) && PlainNames(ops) && ByteValues(ops)
    ensures ReadBack(Emitted(Ops(fs))) == Some(ops) <==> forall i :: 0 <= i < |ops| ==> Carriable(ops[i])
  {
    AllOpsUnique(fs, ops);
    FragmentRoundTrip(ops);
  }
}
