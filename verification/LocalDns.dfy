/** The objects of the local DNS reflector, and which names CoreDNS may be given. */
module LocalDns {
  import opened Order
  import opened Text
  import opened Api

  /**
   * A WeftLocalDNSReflector. `created` is None for the zero time; `configMap` is the CoreDNS ConfigMap it
   * writes to.
   */
  datatype Reflector = Reflector(
    name: string,
    created: Option<int>,
    deleting: bool,
    allHostnames: bool,
    hostnames: seq<string>,
    configMap: string,
    dnsDisabled: bool,
    ignoreUntrusted: bool)

  datatype Scheme = Http | Https | OtherScheme(text: string)

  /** A parsed dstURL. `user` and `rest` (query and fragment) carry their punctuation; `path` is escaped. */
  datatype Url = Url(scheme: Scheme, user: string, hostname: string, path: string, rest: string)

  /** A parsed srcURL; `loopbackIP` says that the host is an IP literal of a loopback address. */
  datatype SourceUrl = SourceUrl(scheme: Scheme, hostname: string, loopbackIP: bool)

  /** A WeftTunnel; a URL that does not parse is None. */
  datatype Tunnel = Tunnel(namespace: string, name: string, dst: Option<Url>, source: string, src: Option<SourceUrl>)

  // ---- names ----

  predicate IsDigit(c: char) { '0' <= c <= '9' }

  predicate IsAlphanumeric(c: char) { IsDigit(c) || 'a' <= c <= 'z' }

  predicate ValidLabel(l: string) {
    && 1 <= |l| <= 63 && IsAlphanumeric(l[0]) && IsAlphanumeric(l[|l| - 1])
    && forall i :: 0 <= i < |l| ==> IsAlphanumeric(l[i]) || l[i] == '-'
  }

  /** hostnameRE: at least two labels between dots. */
  predicate MatchesHostnameRE(h: string) {
    var labels := Split(h, '.');
    |labels| >= 2 && forall i :: 0 <= i < |labels| ==> ValidLabel(labels[i])
  }

  function Decimal(s: string): nat
    requires forall i :: 0 <= i < |s| ==> IsDigit(s[i])
  {
    if s == [] then 0
    else
      var last := s[|s| - 1];
      assert IsDigit(last);
      10 * Decimal(s[..|s| - 1]) + (last as int - '0' as int)
  }

  predicate IsOctet(s: string) {
    && 1 <= |s| <= 3 && (forall i :: 0 <= i < |s| ==> IsDigit(s[i]))
    && (s[0] == '0' ==> |s| == 1) && Decimal(s) <= 255
  }

  /** The only IP literals a hostname can be mistaken for. */
  predicate IsIPv4(h: string) {
    var parts := Split(h, '.');
    |parts| == 4 && forall i :: 0 <= i < 4 ==> IsOctet(parts[i])
  }

  /** A name that can head a CoreDNS server block. */
  predicate Servable(h: string) { |h| <= 253 && MatchesHostnameRE(h) && !IsIPv4(h) }

  /**
   * A label as the pattern spells it: one small letter or digit, or two of them around up to 61 of these and
   * hyphens.
   */
  ghost predicate SpelledLabel(l: string, first: char, mid: string, last: char) {
    && (l == [first] || (l == [first] + mid + [last] && |mid| <= 61))
    && ('0' <= first <= '9' || 'a' <= first <= 'z') && ('0' <= last <= '9' || 'a' <= last <= 'z')
    && forall i :: 0 <= i < |mid| ==> '0' <= mid[i] <= '9' || 'a' <= mid[i] <= 'z' || mid[i] == '-'
  }

  lemma LabelIsSpelled(l: string)
    ensures ValidLabel(l) <==> exists first, mid, last :: SpelledLabel(l, first, mid, last)
  {
    if ValidLabel(l) {
      var n := |l| - 1;
      var mid := if n == 0 then [] else l[1..n];
      assert l == [l[0]] || l == [l[0]] + mid + [l[n]];
      assert SpelledLabel(l, l[0], mid, l[n]);
    }
    if first, mid, last :| SpelledLabel(l, first, mid, last) {
      assert forall i :: 0 < i < |l| - 1 ==> l[i] == mid[i - 1];
    }
  }

  /** The digits of a number below 256, without leading zeros. */
  function Digits(n: nat): string
    requires n < 256
  {
    var digit := (k: int) requires 0 <= k < 10 => ('0' as int + k) as char;
    if n < 10 then [digit(n)]
    else if n < 100 then [digit(n / 10), digit(n % 10)]
    else [digit(n / 100), digit(n / 10 % 10), digit(n % 10)]
  }

  lemma DecimalOf(s: string)
    requires 1 <= |s| <= 3 && forall i :: 0 <= i < |s| ==> IsDigit(s[i])
    ensures |s| == 1 ==> Decimal(s) == s[0] as int - 48
    ensures |s| == 2 ==> Decimal(s) == 10 * (s[0] as int - 48) + (s[1] as int - 48)
    ensures |s| == 3 ==> Decimal(s) == 100 * (s[0] as int - 48) + 10 * (s[1] as int - 48) + (s[2] as int - 48)
  {
    assert s[..0] == [];
    if |s| >= 2 { assert s[..|s| - 1][..|s| - 2] == s[..|s| - 2]; }
    if |s| == 3 { assert s[..2][..1][..0] == []; }
  }

  lemma DigitsAreOctet(n: nat)
    requires n < 256
    ensures IsOctet(Digits(n))
  {
    var s := Digits(n);
    assert forall i :: 0 <= i < |s| ==> IsDigit(s[i]);
    DecimalOf(s);
  }

  lemma DigitsApart(a: nat, b: nat, c: nat)
    requires a < 10 && b < 10 && c < 10
    ensures var n := 100 * a + 10 * b + c; n / 100 == a && n / 10 % 10 == b && n % 10 == c
  {
  }

  lemma OctetIsDigits(s: string)
    requires IsOctet(s)
    ensures Decimal(s) < 256 && s == Digits(Decimal(s))
  {
    DecimalOf(s);
    assert IsDigit(s[0]) && (|s| > 1 ==> IsDigit(s[1])) && (|s| > 2 ==> IsDigit(s[2]));
    if |s| == 3 {
      DigitsApart(s[0] as int - 48, s[1] as int - 48, s[2] as int - 48);
    } else if |s| == 2 {
      DigitsApart(0, s[0] as int - 48, s[1] as int - 48);
    }
  }

  /** One part of an IPv4 literal is the plain decimal text of a byte. */
  lemma OctetExactly(s: string)
    ensures IsOctet(s) <==> exists n: nat :: n < 256 && s == Digits(n)
  {
    if IsOctet(s) { OctetIsDigits(s); }
    if n: nat :| n < 256 && s == Digits(n) { DigitsAreOctet(n); }
  }

  /** Some characters spell this label. */
  ghost predicate Spelled(l: string) { exists first, mid, last :: SpelledLabel(l, first, mid, last) }

  /** The plain decimal text of a number below 256. */
  ghost predicate SmallNumber(s: string) { exists n: nat :: n < 256 && s == Digits(n) }

  lemma ServableParts(h: string, labels: seq<string>)
    requires Split(h, '.') == labels
    ensures Servable(h) <==>
            && |h| <= 253 && |labels| >= 2 && (forall i :: 0 <= i < |labels| ==> ValidLabel(labels[i]))
            && !(|labels| == 4 && forall i :: 0 <= i < |labels| ==> IsOctet(labels[i]))
  {
  }

  lemma PartsSpelled(labels: seq<string>)
    ensures forall i :: 0 <= i < |labels| ==> (ValidLabel(labels[i]) <==> Spelled(labels[i]))
    ensures forall i :: 0 <= i < |labels| ==> (IsOctet(labels[i]) <==> SmallNumber(labels[i]))
  {
    forall i | 0 <= i < |labels| ensures ValidLabel(labels[i]) <==> Spelled(labels[i]) { LabelIsSpelled(labels[i]); }
    forall i | 0 <= i < |labels| ensures IsOctet(labels[i]) <==> SmallNumber(labels[i]) { OctetExactly(labels[i]); }
  }

  /**
   * A name of these labels can be served exactly when it has at most 253 characters and at least two labels,
   * all as the pattern spells them, and is no IPv4 literal: four numbers below 256.
   */
  lemma ServableExactly(h: string, labels: seq<string>)
    requires labels != [] && NoneContains(labels, '.') && h == Join(labels, ['.'])
    ensures Servable(h) <==>
            && |h| <= 253 && |labels| >= 2 && (forall i :: 0 <= i < |labels| ==> Spelled(labels[i]))
            && !(|labels| == 4 && forall i :: 0 <= i < |labels| ==> SmallNumber(labels[i]))
  {
    SplitJoin(labels, '.');
    ServableParts(h, labels);
    PartsSpelled(labels);
  }

  /** A servable name holds nothing but lower-case letters, digits, hyphens and dots. */
  lemma {:induction false} LabelChars(h: string)
    requires forall i :: 0 <= i < |Split(h, '.')| ==> forall j :: 0 <= j < |Split(h, '.')[i]| ==>
        IsAlphanumeric(Split(h, '.')[i][j]) || Split(h, '.')[i][j] == '-'
    ensures forall i :: 0 <= i < |h| ==> IsAlphanumeric(h[i]) || h[i] == '-' || h[i] == '.'
  {
    if h != [] {
      var rest := Split(h[1..], '.');
      var parts := Split(h, '.');
      if h[0] == '.' {
        assert forall i :: 0 <= i < |rest| ==> rest[i] == parts[i + 1];
      } else {
        assert parts[0] == [h[0]] + rest[0];
        assert parts[0][0] == h[0];
        assert forall j :: 0 <= j < |rest[0]| ==> rest[0][j] == parts[0][j + 1];
        assert forall i :: 1 <= i < |rest| ==> rest[i] == parts[i];
      }
      LabelChars(h[1..]);
      assert forall i :: 1 <= i < |h| ==> h[i] == h[1..][i - 1];
    }
  }

  lemma ServableChars(h: string)
    requires MatchesHostnameRE(h)
    ensures forall i :: 0 <= i < |h| ==> IsAlphanumeric(h[i]) || h[i] == '-' || h[i] == '.'
    ensures h != "" && Lower(h) == h
  {
    LabelChars(h);
  }

  // ---- small list functions ----

  function Keep<T>(xs: seq<T>, p: T -> bool): seq<T> {
    if xs == [] then []
    else
      var done, x := Keep(xs[..|xs| - 1], p), xs[|xs| - 1];
      if p(x) then done + [x] else done
  }

  lemma KeepNext<T>(xs: seq<T>, p: T -> bool, i: nat)
    requires i < |xs|
    ensures Keep(xs[..i + 1], p) == if p(xs[i]) then Keep(xs[..i], p) + [xs[i]] else Keep(xs[..i], p)
  {
    assert xs[..i + 1][..i] == xs[..i];
  }

  lemma {:induction false} KeepMembers<T>(xs: seq<T>, p: T -> bool)
    ensures forall x :: x in Keep(xs, p) <==> x in xs && p(x)
    ensures forall i :: 0 <= i < |Keep(xs, p)| ==> Keep(xs, p)[i] in xs
  {
    if xs != [] {
      KeepMembers(xs[..|xs| - 1], p);
      assert xs == xs[..|xs| - 1] + [xs[|xs| - 1]];
    }
  }

  lemma {:induction false} KeepStrict<T>(xs: seq<T>, p: T -> bool, lt: (T, T) -> bool)
    requires StrictlySorted(xs, lt)
    ensures StrictlySorted(Keep(xs, p), lt)
  {
    if xs != [] {
      var k := |xs| - 1;
      KeepStrict(xs[..k], p, lt);
      KeepMembers(xs[..k], p);
      var done := Keep(xs[..k], p);
      forall i | 0 <= i < |done| ensures lt(done[i], xs[k]) {
        var j :| 0 <= j < k && xs[..k][j] == done[i];
        assert xs[j] == done[i];
      }
    }
  }

  /** The lower-cased members of `xs`, each at its first occurrence. */
  function Uniques(xs: seq<string>): seq<string> {
    if xs == [] then []
    else
      var done, x := Uniques(xs[..|xs| - 1]), Lower(xs[|xs| - 1]);
      if x in done then done else done + [x]
  }

  function SortedNames(xs: seq<string>): seq<string> { SortStrings(Uniques(xs)) }

  predicate Names(xs: seq<string>, h: string) { exists i :: 0 <= i < |xs| && Lower(xs[i]) == h }

  lemma {:induction false} UniquesMembers(xs: seq<string>)
    ensures Distinct(Uniques(xs))
    ensures forall h :: h in Uniques(xs) <==> Names(xs, h)
  {
    if xs != [] {
      var k := |xs| - 1;
      UniquesMembers(xs[..k]);
      forall h ensures h in Uniques(xs) <==> Names(xs, h) {
        if Names(xs[..k], h) {
          var i :| 0 <= i < k && Lower(xs[..k][i]) == h;
          assert Lower(xs[i]) == h;
        }
        if Names(xs, h) {
          var i :| 0 <= i < |xs| && Lower(xs[i]) == h;
          assert i < k ==> xs[..k][i] == xs[i];
        }
        assert h == Lower(xs[k]) ==> Names(xs, h);
      }
    }
  }

  lemma SortedNamesMembers(xs: seq<string>)
    ensures StrictlySorted(SortedNames(xs), Less)
    ensures forall h :: h in SortedNames(xs) <==> Names(xs, h)
  {
    UniquesMembers(xs);
    SortStringsProperties(Uniques(xs));
  }

  /** sortedUnique */
  method ComputeSortedNames(xs: seq<string>) returns (out: seq<string>)
    ensures out == SortedNames(xs)
  {
    var seen: set<string> := {};
    out := [];
    var i := 0;
    while i < |xs|
      invariant 0 <= i <= |xs|
      invariant out == Uniques(xs[..i]) && forall s :: s in seen <==> s in out
    {
      assert xs[..i + 1][..i] == xs[..i];
      var s := Lower(xs[i]);
      if s !in seen {
        seen := seen + {s};
        out := out + [s];
      }
      i := i + 1;
    }
    assert xs[..i] == xs;
    out := SortStrings(out);
  }
}
