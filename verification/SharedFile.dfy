/** Several reflectors editing one file: hostsfile.go's claim that the agent "never touches any other line". */
module SharedFile {
  import opened Text
  import opened HostsFile

  // ---- marker lines of different reflectors never coincide ----

  lemma MiddleInjective(p: string, a: string, b: string, s: string)
    requires p + a + s == p + b + s
    ensures a == b
  {
    assert |a| == |b|;
    assert (p + a + s)[|p|..|p| + |a|] == a;
    assert (p + b + s)[|p|..|p| + |b|] == b;
  }

  /** Begin and end markers are injective in the reflector name, and no begin is an end. */
  lemma MarkersDistinct(kind: Kind, a: string, b: string)
    ensures MarkersOf(kind, a).begin != MarkersOf(kind, b).end
    ensures MarkersOf(kind, a).begin == MarkersOf(kind, b).begin ==> a == b
    ensures MarkersOf(kind, a).end == MarkersOf(kind, b).end ==> a == b
  {
    var ma, mb := MarkersOf(kind, a), MarkersOf(kind, b);
    assert ma.begin[2] == BEGIN_PREFIX[2] == 'B' && mb.end[2] == END_PREFIX[2] == 'E';
    if ma.begin == mb.begin { MiddleInjective(BEGIN_PREFIX, a, b, BeginSuffix(kind)); }
    if ma.end == mb.end { MiddleInjective(END_PREFIX, a, b, EndSuffix(kind)); }
  }

  /** The marker lines of each reflector. */
  type Registry = string -> Markers

  ghost predicate Separate(mk: Registry) {
    forall a, b :: mk(a).begin != mk(b).end && (a != b ==> mk(a).begin != mk(b).begin && mk(a).end != mk(b).end)
  }

  // ---- the file as items: plain lines and one block per reflector ----

  datatype Item = Line(text: string) | Block(who: string, body: seq<string>)

  function ItemLines(mk: Registry, x: Item): seq<string> {
    match x
    case Line(t) => [t]
    case Block(who, body) => BlockLines(mk(who), body)
  }

  function Flatten(mk: Registry, items: seq<Item>): seq<string> {
    if items == [] then [] else ItemLines(mk, items[0]) + Flatten(mk, items[1..])
  }

  predicate FreeOf(mk: Registry, names: set<string>, lines: seq<string>) {
    forall n :: n in names ==> Free(mk(n), lines)
  }

  predicate Has(items: seq<Item>, who: string) {
    exists i :: 0 <= i < |items| && items[i].Block? && items[i].who == who
  }

  predicate ItemOk(mk: Registry, names: set<string>, x: Item) {
    match x
    case Line(t) => FreeOf(mk, names, [t])
    case Block(who, body) => who in names && body != [] && FreeOf(mk, names, body)
  }

  predicate WellFormed(mk: Registry, names: set<string>, items: seq<Item>) {
    && (forall i :: 0 <= i < |items| ==> ItemOk(mk, names, items[i]))
    && (forall i, j :: 0 <= i < j < |items| && items[i].Block? && items[j].Block? ==> items[i].who != items[j].who)
  }

  function Without(items: seq<Item>, who: string): seq<Item> {
    if items == [] then []
    else if items[0].Block? && items[0].who == who then Without(items[1..], who)
    else [items[0]] + Without(items[1..], who)
  }

  function NewBlock(who: string, body: seq<string>): seq<Item> {
    if body == [] then [] else [Block(who, body)]
  }

  function Replace(items: seq<Item>, who: string, body: seq<string>): seq<Item> {
    if items == [] then []
    else if items[0].Block? && items[0].who == who then NewBlock(who, body) + items[1..]
    else [items[0]] + Replace(items[1..], who, body)
  }

  /** One reflector sets its block, or removes it with an empty body. */
  function EditItems(items: seq<Item>, who: string, body: seq<string>): seq<Item> {
    if Has(items, who) then Replace(items, who, body) else items + NewBlock(who, body)
  }

  lemma {:induction false} FlattenAppend(mk: Registry, a: seq<Item>, b: seq<Item>)
    ensures Flatten(mk, a + b) == Flatten(mk, a) + Flatten(mk, b)
  {
    if a == [] {
      assert a + b == b;
    } else {
      assert (a + b)[1..] == a[1..] + b;
      FlattenAppend(mk, a[1..], b);
    }
  }

  lemma {:induction false} NoBeginInside(mk: Registry, names: set<string>, items: seq<Item>, who: string)
    requires Separate(mk) && who in names && WellFormed(mk, names, items) && !Has(items, who)
    ensures mk(who).begin !in Flatten(mk, items)
  {
    if items != [] {
      assert WellFormed(mk, names, items[1..]) && !Has(items[1..], who);
      NoBeginInside(mk, names, items[1..], who);
      var m := mk(who);
      match items[0]
      case Line(t) =>
        assert Free(m, [t]);
        assert !IsMarker(m, [t][0]);
      case Block(w, body) =>
            assert Free(m, body);
        assert m.begin !in body;
    }
  }

  lemma {:induction false} WithoutAbsent(items: seq<Item>, who: string)
    requires !Has(items, who)
    ensures Without(items, who) == items
  {
    if items != [] {
      assert !Has(items[1..], who);
      WithoutAbsent(items[1..], who);
    }
  }

  lemma {:induction false} ReplaceShape(items: seq<Item>, i: nat, who: string, body: seq<string>)
    requires i < |items| && items[i].Block? && items[i].who == who
    requires forall k :: 0 <= k < i ==> !(items[k].Block? && items[k].who == who)
    ensures Replace(items, who, body) == items[..i] + NewBlock(who, body) + items[i + 1..]
  {
    if i == 0 {
      assert items[..0] + NewBlock(who, body) == NewBlock(who, body);
    } else {
      ReplaceShape(items[1..], i - 1, who, body);
      assert items[..i] == [items[0]] + items[1..][..i - 1];
      assert items[1..][i..] == items[i + 1..];
    }
  }

  lemma EditFlattenAt(
    mk: Registry, names: set<string>, pre: seq<Item>, was: seq<string>, post: seq<Item>, who: string,
    body: seq<string>)
    requires Separate(mk) && who in names && was != [] && FreeOf(mk, names, was)
    requires WellFormed(mk, names, pre) && WellFormed(mk, names, post) && !Has(pre, who) && !Has(post, who)
    ensures Edit(mk(who), Flatten(mk, pre + [Block(who, was)] + post), body) ==
            Flatten(mk, pre + NewBlock(who, body) + post)
  {
    var m := mk(who);
    NoBeginInside(mk, names, pre, who);
    NoBeginInside(mk, names, post, who);
    FlattenThree(mk, pre, [Block(who, was)], post);
    FlattenThree(mk, pre, NewBlock(who, body), post);
    FlattenNewBlock(mk, who, was);
    FlattenNewBlock(mk, who, body);
    EditAt(m, Flatten(mk, pre), was, Flatten(mk, post), body);
  }

  lemma FlattenNewBlock(mk: Registry, who: string, body: seq<string>)
    ensures Flatten(mk, NewBlock(who, body)) == BlockLines(mk(who), body)
  {
    assert BlockLines(mk(who), body) + [] == BlockLines(mk(who), body);
  }

  lemma SplitAtBlock(mk: Registry, names: set<string>, items: seq<Item>, i: nat)
    requires WellFormed(mk, names, items) && i < |items| && items[i].Block?
    ensures WellFormed(mk, names, items[..i]) && !Has(items[..i], items[i].who)
    ensures WellFormed(mk, names, items[i + 1..]) && !Has(items[i + 1..], items[i].who)
    ensures items[i].who in names && items[i].body != [] && FreeOf(mk, names, items[i].body)
    ensures items == items[..i] + [items[i]] + items[i + 1..]
  {
    assert ItemOk(mk, names, items[i]);
  }

  /** The line editor does to the flattened file what EditItems does to the items. */
  lemma EditFlatten(mk: Registry, names: set<string>, items: seq<Item>, who: string, body: seq<string>)
    requires Separate(mk) && who in names && WellFormed(mk, names, items)
    ensures Edit(mk(who), Flatten(mk, items), body) == Flatten(mk, EditItems(items, who, body))
  {
    if Has(items, who) {
      var i :| 0 <= i < |items| && items[i].Block? && items[i].who == who;
      SplitAtBlock(mk, names, items, i);
      EditFlattenAt(mk, names, items[..i], items[i].body, items[i + 1..], who, body);
      ReplaceShape(items, i, who, body);
    } else {
      NoBeginInside(mk, names, items, who);
      EditFresh(mk(who), Flatten(mk, items), body);
      FlattenAppend(mk, items, NewBlock(who, body));
      FlattenNewBlock(mk, who, body);
    }
  }

  lemma FlattenThree(mk: Registry, a: seq<Item>, b: seq<Item>, c: seq<Item>)
    ensures Flatten(mk, a + b + c) == Flatten(mk, a) + Flatten(mk, b) + Flatten(mk, c)
  {
    FlattenAppend(mk, a + b, c);
    FlattenAppend(mk, a, b);
  }

  lemma WellFormedAround(
    mk: Registry, names: set<string>, pre: seq<Item>, post: seq<Item>, who: string, body: seq<string>)
    requires who in names && FreeOf(mk, names, body)
    requires WellFormed(mk, names, pre + post) && !Has(pre + post, who)
    ensures WellFormed(mk, names, pre + NewBlock(who, body) + post)
  {
    var all, both := pre + NewBlock(who, body) + post, pre + post;
    var d := |NewBlock(who, body)|;
    forall i | 0 <= i < |all| ensures ItemOk(mk, names, all[i]) {
      if i < |pre| { assert all[i] == both[i]; } else if i >= |pre| + d { assert all[i] == both[i - d]; }
    }
    forall i, j | 0 <= i < j < |all| && all[i].Block? && all[j].Block? ensures all[i].who != all[j].who {
      assert i < |pre| ==> all[i] == both[i];
      assert j < |pre| ==> all[j] == both[j];
      assert i >= |pre| + d ==> all[i] == both[i - d];
      assert j >= |pre| + d ==> all[j] == both[j - d];
    }
  }

  lemma EditKeepsWellFormed(mk: Registry, names: set<string>, items: seq<Item>, who: string, body: seq<string>)
    requires who in names && WellFormed(mk, names, items) && FreeOf(mk, names, body)
    ensures WellFormed(mk, names, EditItems(items, who, body))
  {
    if Has(items, who) {
      var i :| 0 <= i < |items| && items[i].Block? && items[i].who == who;
      ReplaceShape(items, i, who, body);
      WellFormedAround(mk, names, items[..i], items[i + 1..], who, body);
    } else {
      assert items + [] == items && items + NewBlock(who, body) + [] == items + NewBlock(who, body);
      WellFormedAround(mk, names, items, [], who, body);
    }
  }

  // ---- erasing one reflector commutes with everyone else's edits ----

  lemma {:induction false} WithoutAppend(a: seq<Item>, b: seq<Item>, who: string)
    ensures Without(a + b, who) == Without(a, who) + Without(b, who)
  {
    if a == [] {
      assert a + b == b;
    } else {
      assert (a + b)[1..] == a[1..] + b;
      WithoutAppend(a[1..], b, who);
    }
  }

  lemma {:induction false} WithoutHas(items: seq<Item>, r: string, q: string)
    requires q != r
    ensures Has(Without(items, r), q) == Has(items, q)
  {
    if items != [] {
      WithoutHas(items[1..], r, q);
      var rest := Without(items[1..], r);
      HasCons(items[0], items[1..], q);
      HasCons(items[0], rest, q);
      assert items == [items[0]] + items[1..];
    }
  }

  lemma HasCons(x: Item, items: seq<Item>, q: string)
    ensures Has([x] + items, q) <==> (x.Block? && x.who == q) || Has(items, q)
  {
    var all := [x] + items;
    if Has(items, q) {
      var i :| 0 <= i < |items| && items[i].Block? && items[i].who == q;
      assert all[i + 1] == items[i];
    }
    if x.Block? && x.who == q { assert all[0] == x; }
  }

  lemma {:induction false} WithoutReplaceOther(items: seq<Item>, r: string, q: string, body: seq<string>)
    requires q != r
    ensures Without(Replace(items, q, body), r) == Replace(Without(items, r), q, body)
  {
    if items != [] {
      WithoutReplaceOther(items[1..], r, q, body);
      if items[0].Block? && items[0].who == q {
        WithoutAppend(NewBlock(q, body), items[1..], r);
        WithoutAbsent(NewBlock(q, body), r);
      }
    }
  }

  lemma {:induction false} WithoutReplaceSame(items: seq<Item>, r: string, body: seq<string>)
    ensures Without(Replace(items, r, body), r) == Without(items, r)
  {
    if items != [] {
      WithoutReplaceSame(items[1..], r, body);
      if items[0].Block? && items[0].who == r {
        WithoutAppend(NewBlock(r, body), items[1..], r);
        assert Without(NewBlock(r, body), r) == [];
      }
    }
  }

  lemma ErasureCommutes(items: seq<Item>, r: string, q: string, body: seq<string>)
    ensures Without(EditItems(items, q, body), r) ==
            if q == r then Without(items, r) else EditItems(Without(items, r), q, body)
  {
    WithoutAppend(items, NewBlock(q, body), r);
    if q == r {
      WithoutReplaceSame(items, r, body);
      assert Without(NewBlock(r, body), r) == [];
    } else {
      WithoutHas(items, r, q);
      WithoutReplaceOther(items, r, q, body);
      WithoutAbsent(NewBlock(q, body), r);
    }
  }

  lemma {:induction false} WithoutLine(mk: Registry, names: set<string>, items: seq<Item>, who: string)
    requires Separate(mk) && who in names && WellFormed(mk, names, items)
    ensures Edit(mk(who), Flatten(mk, items), []) == Flatten(mk, Without(items, who))
  {
    EditFlatten(mk, names, items, who, []);
    ErasureCommutes(items, who, who, []);
    EditKeepsWellFormed(mk, names, items, who, []);
    if Has(items, who) {
      var i :| 0 <= i < |items| && items[i].Block? && items[i].who == who;
      ReplaceShape(items, i, who, []);
      assert !Has(EditItems(items, who, []), who);
    }
    WithoutAbsent(EditItems(items, who, []), who);
  }

  // ---- runs ----

  /** One edit: `who` sets its block to `body`, or removes it when `body` is empty. */
  datatype EditOp = EditOp(who: string, body: seq<string>)

  function Run(mk: Registry, lines: seq<string>, ops: seq<EditOp>): seq<string>
    decreases ops
  {
    if ops == [] then lines
    else Run(mk, Edit(mk(ops[0].who), lines, ops[0].body), ops[1..])
  }

  function RunItems(items: seq<Item>, ops: seq<EditOp>): seq<Item>
    decreases ops
  {
    if ops == [] then items else RunItems(EditItems(items, ops[0].who, ops[0].body), ops[1..])
  }

  function OpsWithout(ops: seq<EditOp>, who: string): seq<EditOp> {
    if ops == [] then []
    else if ops[0].who == who then OpsWithout(ops[1..], who)
    else [ops[0]] + OpsWithout(ops[1..], who)
  }

  predicate OpsIn(mk: Registry, names: set<string>, ops: seq<EditOp>) {
    forall i :: 0 <= i < |ops| ==> ops[i].who in names && FreeOf(mk, names, ops[i].body)
  }

  lemma {:induction false} RunFlatten(mk: Registry, names: set<string>, items: seq<Item>, ops: seq<EditOp>)
    requires Separate(mk) && WellFormed(mk, names, items) && OpsIn(mk, names, ops)
    ensures Run(mk, Flatten(mk, items), ops) == Flatten(mk, RunItems(items, ops))
    ensures WellFormed(mk, names, RunItems(items, ops))
    decreases ops
  {
    if ops != [] {
      EditFlatten(mk, names, items, ops[0].who, ops[0].body);
      EditKeepsWellFormed(mk, names, items, ops[0].who, ops[0].body);
      RunFlatten(mk, names, EditItems(items, ops[0].who, ops[0].body), ops[1..]);
    }
  }

  lemma {:induction false} RunItemsErase(items: seq<Item>, ops: seq<EditOp>, r: string)
    ensures Without(RunItems(items, ops), r) == RunItems(Without(items, r), OpsWithout(ops, r))
    decreases ops
  {
    if ops != [] {
      var q, body := ops[0].who, ops[0].body;
      ErasureCommutes(items, r, q, body);
      RunItemsErase(EditItems(items, q, body), ops[1..], r);
      if q != r {
        assert OpsWithout(ops, r)[0] == ops[0] && OpsWithout(ops, r)[1..] == OpsWithout(ops[1..], r);
      }
    }
  }

  function LineItems(lines: seq<string>): seq<Item> {
    if lines == [] then [] else [Line(lines[0])] + LineItems(lines[1..])
  }

  lemma {:induction false} LineItemsFlatten(mk: Registry, names: set<string>, lines: seq<string>)
    requires FreeOf(mk, names, lines)
    ensures Flatten(mk, LineItems(lines)) == lines
    ensures WellFormed(mk, names, LineItems(lines))
    ensures |LineItems(lines)| == |lines| && forall i :: 0 <= i < |lines| ==> LineItems(lines)[i] == Line(lines[i])
  {
    if lines != [] {
      forall n | n in names ensures Free(mk(n), lines[1..]) && Free(mk(n), [lines[0]]) {
        assert Free(mk(n), lines);
      }
      LineItemsFlatten(mk, names, lines[1..]);
    }
  }

  lemma IndependentRuns(mk: Registry, names: set<string>, lines: seq<string>, ops: seq<EditOp>, r: string)
    requires Separate(mk) && FreeOf(mk, names, lines) && OpsIn(mk, names, ops) && r in names
    ensures Edit(mk(r), Run(mk, lines, ops), []) == Run(mk, lines, OpsWithout(ops, r))
  {
    var items := LineItems(lines);
    LineItemsFlatten(mk, names, lines);
    RunFlatten(mk, names, items, ops);
    WithoutLine(mk, names, RunItems(items, ops), r);
    RunItemsErase(items, ops, r);
    assert !Has(items, r);
    WithoutAbsent(items, r);
    OpsWithoutIn(mk, names, ops, r);
    RunFlatten(mk, names, items, OpsWithout(ops, r));
  }

  function RegistryOf(kind: Kind): Registry { n => MarkersOf(kind, n) }

  /**
   * Reflectors are independent. From a file without their markers, for any interleaving of set
   * and remove edits by any reflectors, erasing one reflector's block leaves the lines of the
   * run in which that reflector never edited.
   */
  lemma ReflectorsAreIndependent(kind: Kind, names: set<string>, lines: seq<string>, ops: seq<EditOp>, r: string)
    requires FreeOf(RegistryOf(kind), names, lines) && OpsIn(RegistryOf(kind), names, ops) && r in names
    ensures Edit(MarkersOf(kind, r), Run(RegistryOf(kind), lines, ops), []) ==
            Run(RegistryOf(kind), lines, OpsWithout(ops, r))
  {
    forall a, b ensures
      var mk := RegistryOf(kind);
      mk(a).begin != mk(b).end && (a != b ==> mk(a).begin != mk(b).begin && mk(a).end != mk(b).end)
    {
      MarkersDistinct(kind, a, b);
    }
    IndependentRuns(RegistryOf(kind), names, lines, ops, r);
  }

  lemma {:induction false} OpsWithoutIn(mk: Registry, names: set<string>, ops: seq<EditOp>, r: string)
    requires OpsIn(mk, names, ops)
    ensures OpsIn(mk, names, OpsWithout(ops, r))
  {
    if ops != [] {
      assert OpsIn(mk, names, ops[1..]);
      OpsWithoutIn(mk, names, ops[1..], r);
    }
  }
}
