/** The entries of a plan summary: classified changes rolled up to their module, kept in sorted lists. */
module Rollup {
  import opened Versions
  import Sorting

  datatype Target = Root | Named(name: string)

  datatype Bucket = Added | Changed | Destroyed | Replaced | Forgotten | Imported

  datatype Move = Move(from: string, to: string)

  /** A classified resource change. */
  datatype Item = Item(target: Target, address: string, bucket: Option<Bucket>, move: Option<Move>)

  /** A classified output change. */
  datatype Output = Output(target: Target, kind: Bucket, rest: string)

  datatype OutputChanges = OutputChanges(added: seq<string>, changed: seq<string>, destroyed: seq<string>)

  datatype ModuleChanges = ModuleChanges(added: seq<string>, changed: seq<string>, destroyed: seq<string>,
                                         replaced: seq<string>, forgotten: seq<string>, imported: seq<string>,
                                         moved: seq<Move>, outputs: Option<OutputChanges>)

  /** The root entry and the module entries of the summary. */
  type Summary = map<Target, ModuleChanges>

  const NO_OUTPUTS := OutputChanges([], [], [])

  const NO_CHANGES := ModuleChanges([], [], [], [], [], [], [], None)

  function Field(m: ModuleChanges, b: Bucket): seq<string> {
    match b
    case Added => m.added
    case Changed => m.changed
    case Destroyed => m.destroyed
    case Replaced => m.replaced
    case Forgotten => m.forgotten
    case Imported => m.imported
  }

  function WithField(m: ModuleChanges, b: Bucket, s: seq<string>): ModuleChanges {
    match b
    case Added => m.(added := s)
    case Changed => m.(changed := s)
    case Destroyed => m.(destroyed := s)
    case Replaced => m.(replaced := s)
    case Forgotten => m.(forgotten := s)
    case Imported => m.(imported := s)
  }

  function OutputField(o: OutputChanges, b: Bucket): seq<string> {
    match b
    case Added => o.added
    case Changed => o.changed
    case Destroyed => o.destroyed
    case _ => []
  }

  function WithOutput(o: OutputChanges, kind: Bucket, rest: string): OutputChanges {
    match kind
    case Added => o.(added := o.added + [rest])
    case Changed => o.(changed := o.changed + [rest])
    case Destroyed => o.(destroyed := o.destroyed + [rest])
    case _ => o
  }

  predicate Relevant(i: Item) {
    i.bucket.Some? || i.move.Some?
  }

  predicate IsOutput(o: Output) {
    o.kind in {Added, Changed, Destroyed}
  }

  /* ---------- the reference: what belongs where ---------- */

  /** What f takes from each element, in order. */
  function Collect<A, B>(s: seq<A>, f: A -> seq<B>): seq<B> {
    if s == [] then [] else Collect(s[..|s| - 1], f) + f(s[|s| - 1])
  }

  /** The address of a change of one of these modules that lands in one of these buckets. */
  function Chosen(ts: set<Target>, bs: set<Bucket>): Item -> seq<string> {
    (i: Item) => if i.bucket.Some? && i.bucket.value in bs && i.target in ts then [i.address] else []
  }

  function MovedIn(t: Target): Item -> seq<Move> {
    (i: Item) => if i.target == t && i.move.Some? then [i.move.value] else []
  }

  ghost predicate Touched(items: seq<Item>, t: Target) {
    exists k :: 0 <= k < |items| && Relevant(items[k]) && items[k].target == t
  }

  ghost predicate OutputTouched(os: set<Output>, t: Target) {
    exists o :: o in os && o.target == t
  }

  ghost function Rests(os: set<Output>, t: Target, b: Bucket): set<string> {
    set o | o in os && o.target == t && o.kind == b :: o.rest
  }

  function Itself(s: string): string { s }

  function Destination(m: Move): string { m.to }

  ghost predicate Lists(items: seq<Item>, t: Target, b: Bucket, listed: seq<string>) {
    Sorting.SortedBy(listed, Itself) && multiset(listed) == multiset(Collect(items, Chosen({t}, {b})))
  }

  ghost predicate ListsOutputs(os: set<Output>, t: Target, b: Bucket, listed: seq<string>) {
    Sorting.SortedBy(listed, Itself) && multiset(listed) == multiset(Rests(os, t, b))
  }

  /** The entry of one module: every change in the list it belongs to, every list sorted. */
  ghost predicate IsEntry(items: seq<Item>, os: set<Output>, t: Target, m: ModuleChanges) {
    && (forall b :: Lists(items, t, b, Field(m, b)))
    && m.moved == Sorting.Sort(Collect(items, MovedIn(t)), Destination)
    && (m.outputs.Some? <==> OutputTouched(os, t))
    && (m.outputs.Some? ==> forall b :: ListsOutputs(os, t, b, OutputField(m.outputs.value, b)))
  }

  ghost predicate IsRollup(items: seq<Item>, os: set<Output>, s: Summary) {
    && (forall t :: t in s <==> Touched(items, t) || OutputTouched(os, t))
    && (forall t :: t in s ==> IsEntry(items, os, t, s[t]))
  }

  /* ---------- building the entries ---------- */

  function AddItem(m: ModuleChanges, i: Item): ModuleChanges {
    var moved := if i.move.Some? then m.(moved := m.moved + [i.move.value]) else m;
    if i.bucket.Some? then WithField(moved, i.bucket.value, Field(moved, i.bucket.value) + [i.address]) else moved
  }

  function Outputs(m: ModuleChanges): OutputChanges {
    if m.outputs.Some? then m.outputs.value else NO_OUTPUTS
  }

  function AddOutput(m: ModuleChanges, o: Output): ModuleChanges {
    m.(outputs := Some(WithOutput(Outputs(m), o.kind, o.rest)))
  }

  function Entry(s: Summary, t: Target): ModuleChanges {
    if t in s then s[t] else NO_CHANGES
  }

  function WithItem(s: Summary, i: Item): Summary {
    if Relevant(i) then s[i.target := AddItem(Entry(s, i.target), i)] else s
  }

  /** The unsorted lists of one module. */
  ghost predicate ListsHold(items: seq<Item>, t: Target, m: ModuleChanges) {
    (forall b :: Field(m, b) == Collect(items, Chosen({t}, {b}))) && m.moved == Collect(items, MovedIn(t))
  }

  /** The unsorted output lists of one module. */
  ghost predicate OutputsHold(os: set<Output>, t: Target, m: ModuleChanges) {
    && (m.outputs.Some? <==> OutputTouched(os, t))
    && (forall b :: multiset(OutputField(Outputs(m), b)) == multiset(Rests(os, t, b)))
  }

  ghost predicate Collected(items: seq<Item>, os: set<Output>, s: Summary) {
    && (forall t :: t in s <==> Touched(items, t) || OutputTouched(os, t))
    && (forall t :: ListsHold(items, t, Entry(s, t)))
    && (forall t :: OutputsHold(os, t, Entry(s, t)))
  }

  lemma NothingCollected()
    ensures Collected([], {}, map[])
  {
    forall t ensures ListsHold([], t, NO_CHANGES) && OutputsHold({}, t, NO_CHANGES) {
      forall b ensures Rests({}, t, b) == {} && OutputField(NO_OUTPUTS, b) == [] {
      }
    }
  }

  lemma Appended<A, B>(s: seq<A>, x: A, f: A -> seq<B>)
    ensures Collect(s + [x], f) == Collect(s, f) + f(x)
  {
    assert (s + [x])[..|s|] == s;
  }

  lemma AddedField(m: ModuleChanges, i: Item, b: Bucket)
    ensures Field(AddItem(m, i), b) == Field(m, b) + Chosen({i.target}, {b})(i)
    ensures AddItem(m, i).moved == m.moved + MovedIn(i.target)(i)
    ensures AddItem(m, i).outputs == m.outputs
  {
  }

  lemma ItemHeld(items: seq<Item>, i: Item, u: Target, m: ModuleChanges)
    requires ListsHold(items, u, m)
    ensures i.target == u ==> ListsHold(items + [i], u, AddItem(m, i))
    ensures i.target != u || !Relevant(i) ==> ListsHold(items + [i], u, m)
  {
    Appended(items, i, MovedIn(u));
    forall b ensures Collect(items + [i], Chosen({u}, {b})) == Field(m, b) + Chosen({u}, {b})(i) {
      Appended(items, i, Chosen({u}, {b}));
    }
    if i.target == u {
      forall b ensures Field(AddItem(m, i), b) == Field(m, b) + Chosen({u}, {b})(i) {
        AddedField(m, i, b);
      }
      AddedField(m, i, Added);
    }
  }

  lemma TouchedSoFar(items: seq<Item>, i: Item, u: Target)
    ensures Touched(items + [i], u) <==> Touched(items, u) || (Relevant(i) && i.target == u)
  {
    if Touched(items, u) {
      var k :| 0 <= k < |items| && Relevant(items[k]) && items[k].target == u;
      assert (items + [i])[k] == items[k];
    }
    if Relevant(i) && i.target == u {
      assert (items + [i])[|items|] == i;
    }
  }

  lemma ItemCollected(items: seq<Item>, i: Item, s: Summary)
    requires Collected(items, {}, s)
    ensures Collected(items + [i], {}, WithItem(s, i))
  {
    var next := WithItem(s, i);
    forall u ensures u in next <==> Touched(items + [i], u) || OutputTouched({}, u) {
      TouchedSoFar(items, i, u);
    }
    forall u ensures ListsHold(items + [i], u, Entry(next, u)) {
      assert ListsHold(items, u, Entry(s, u));
      ItemHeld(items, i, u, Entry(s, u));
    }
    forall u ensures OutputsHold({}, u, Entry(next, u)) {
      assert OutputsHold({}, u, Entry(s, u));
      AddedField(Entry(s, u), i, Added);
      assert Entry(next, u).outputs == Entry(s, u).outputs;
    }
  }

  lemma OutputAppended(m: ModuleChanges, o: Output, b: Bucket)
    requires IsOutput(o)
    ensures OutputField(Outputs(AddOutput(m, o)), b) == OutputField(Outputs(m), b) + if b == o.kind then [o.rest] else []
    ensures Field(AddOutput(m, o), b) == Field(m, b)
  {
  }

  lemma RestsGrow(os: set<Output>, o: Output, t: Target, b: Bucket)
    requires o !in os
    ensures multiset(Rests(os + {o}, t, b))
            == multiset(Rests(os, t, b)) + if o.target == t && o.kind == b then multiset{o.rest} else multiset{}
  {
    if o.target == t && o.kind == b {
      assert o.rest !in Rests(os, t, b);
      assert Rests(os + {o}, t, b) == Rests(os, t, b) + {o.rest};
    } else {
      assert Rests(os + {o}, t, b) == Rests(os, t, b);
    }
  }

  lemma OutputHeld(os: set<Output>, o: Output, u: Target, m: ModuleChanges)
    requires IsOutput(o) && o !in os && OutputsHold(os, u, m)
    ensures OutputsHold(os + {o}, u, if o.target == u then AddOutput(m, o) else m)
  {
    var next := if o.target == u then AddOutput(m, o) else m;
    forall b ensures multiset(OutputField(Outputs(next), b)) == multiset(Rests(os + {o}, u, b)) {
      assert multiset(OutputField(Outputs(m), b)) == multiset(Rests(os, u, b));
      RestsGrow(os, o, u, b);
      OutputAppended(m, o, b);
    }
    OutputTouchedSoFar(os, o, u);
  }

  lemma OutputTouchedSoFar(os: set<Output>, o: Output, u: Target)
    ensures OutputTouched(os + {o}, u) <==> OutputTouched(os, u) || o.target == u
  {
    assert o in os + {o};
    if OutputTouched(os, u) {
      var p :| p in os && p.target == u;
      assert p in os + {o};
    }
  }

  lemma OutputCollected(items: seq<Item>, os: set<Output>, o: Output, s: Summary)
    requires Collected(items, os, s) && IsOutput(o) && o !in os
    ensures Collected(items, os + {o}, s[o.target := AddOutput(Entry(s, o.target), o)])
  {
    var next := s[o.target := AddOutput(Entry(s, o.target), o)];
    forall u ensures u in next <==> Touched(items, u) || OutputTouched(os + {o}, u) {
      OutputTouchedSoFar(os, o, u);
    }
    forall u ensures ListsHold(items, u, Entry(next, u)) {
      assert ListsHold(items, u, Entry(s, u));
      forall b {
        OutputAppended(Entry(s, u), o, b);
      }
    }
    forall u ensures OutputsHold(os + {o}, u, Entry(next, u)) {
      assert OutputsHold(os, u, Entry(s, u));
      OutputHeld(os, o, u, Entry(s, u));
    }
  }

  function SortOutputs(o: OutputChanges): OutputChanges {
    OutputChanges(Sorting.Sort(o.added, Itself), Sorting.Sort(o.changed, Itself), Sorting.Sort(o.destroyed, Itself))
  }

  function SortEntry(m: ModuleChanges): ModuleChanges {
    ModuleChanges(
      Sorting.Sort(m.added, Itself), Sorting.Sort(m.changed, Itself), Sorting.Sort(m.destroyed, Itself),
      Sorting.Sort(m.replaced, Itself), Sorting.Sort(m.forgotten, Itself), Sorting.Sort(m.imported, Itself),
      Sorting.Sort(m.moved, Destination),
      if m.outputs.Some? then Some(SortOutputs(m.outputs.value)) else None)
  }

  lemma SortedOutputs(o: OutputChanges, b: Bucket)
    ensures Sorting.SortedBy(OutputField(SortOutputs(o), b), Itself)
    ensures multiset(OutputField(SortOutputs(o), b)) == multiset(OutputField(o, b))
  {
    Sorting.SortSorts(OutputField(o, b), Itself);
  }

  lemma SortedField(m: ModuleChanges, b: Bucket)
    ensures Field(SortEntry(m), b) == Sorting.Sort(Field(m, b), Itself)
  {
  }

  lemma SortedLists(items: seq<Item>, t: Target, m: ModuleChanges, b: Bucket)
    requires ListsHold(items, t, m)
    ensures Lists(items, t, b, Field(SortEntry(m), b))
  {
    Sorting.SortSorts(Field(m, b), Itself);
    SortedField(m, b);
  }

  lemma SortedEntry(items: seq<Item>, os: set<Output>, t: Target, m: ModuleChanges)
    requires ListsHold(items, t, m) && OutputsHold(os, t, m)
    ensures IsEntry(items, os, t, SortEntry(m))
  {
    forall b ensures Lists(items, t, b, Field(SortEntry(m), b)) {
      SortedLists(items, t, m, b);
    }
    if m.outputs.Some? {
      forall b ensures ListsOutputs(os, t, b, OutputField(SortOutputs(m.outputs.value), b)) {
        assert multiset(OutputField(Outputs(m), b)) == multiset(Rests(os, t, b));
        SortedOutputs(m.outputs.value, b);
      }
    }
  }

  lemma SortedSummary(items: seq<Item>, os: set<Output>, s: Summary)
    requires Collected(items, os, s)
    ensures IsRollup(items, os, map t | t in s :: SortEntry(s[t]))
  {
    forall t | t in s ensures IsEntry(items, os, t, SortEntry(s[t])) {
      assert ListsHold(items, t, Entry(s, t)) && OutputsHold(os, t, Entry(s, t));
      SortedEntry(items, os, t, s[t]);
    }
  }

  /* ---------- what is listed ---------- */

  lemma {:induction false} InCollect<A, B>(s: seq<A>, f: A -> seq<B>, x: B)
    ensures x in Collect(s, f) <==> exists k :: 0 <= k < |s| && x in f(s[k])
  {
    if s != [] {
      InCollect(s[..|s| - 1], f, x);
      assert forall k :: 0 <= k < |s| - 1 ==> s[..|s| - 1][k] == s[k];
    }
  }

  /** The lists have the names of their buckets. */
  lemma FieldNames(m: ModuleChanges)
    ensures Field(m, Added) == m.added && Field(m, Changed) == m.changed && Field(m, Destroyed) == m.destroyed
    ensures Field(m, Replaced) == m.replaced && Field(m, Forgotten) == m.forgotten && Field(m, Imported) == m.imported
    ensures m.outputs.Some? ==>
              var o := m.outputs.value;
              OutputField(o, Added) == o.added && OutputField(o, Changed) == o.changed && OutputField(o, Destroyed) == o.destroyed
  {
  }

  lemma SameElements<T>(a: seq<T>, b: seq<T>, x: T)
    requires multiset(a) == multiset(b)
    ensures x in a <==> x in b
  {
    assert x in a <==> x in multiset(a);
    assert x in b <==> x in multiset(b);
  }

  lemma ChosenIsListed(items: seq<Item>, os: set<Output>, s: Summary, t: Target, b: Bucket, a: string)
    requires IsRollup(items, os, s)
    ensures t in s && a in Field(s[t], b) <==> a in Collect(items, Chosen({t}, {b}))
  {
    if a in Collect(items, Chosen({t}, {b})) {
      InCollect(items, Chosen({t}, {b}), a);
      var k :| 0 <= k < |items| && a in Chosen({t}, {b})(items[k]);
      assert Relevant(items[k]) && items[k].target == t && Touched(items, t);
    }
    if t in s {
      assert Lists(items, t, b, Field(s[t], b));
      SameElements(Field(s[t], b), Collect(items, Chosen({t}, {b})), a);
    }
  }

  lemma MoveIsListed(items: seq<Item>, os: set<Output>, s: Summary, t: Target, m: Move)
    requires IsRollup(items, os, s)
    ensures t in s && m in s[t].moved <==> m in Collect(items, MovedIn(t))
  {
    if m in Collect(items, MovedIn(t)) {
      InCollect(items, MovedIn(t), m);
      var k :| 0 <= k < |items| && m in MovedIn(t)(items[k]);
      assert Relevant(items[k]) && items[k].target == t && Touched(items, t);
    }
    if t in s {
      Sorting.SortSorts(Collect(items, MovedIn(t)), Destination);
      SameElements(s[t].moved, Collect(items, MovedIn(t)), m);
    }
  }

  lemma OutputIsListed(items: seq<Item>, os: set<Output>, s: Summary, t: Target, b: Bucket, rest: string)
    requires IsRollup(items, os, s) && b in {Added, Changed, Destroyed}
    ensures t in s && s[t].outputs.Some? && rest in OutputField(s[t].outputs.value, b) <==> Output(t, b, rest) in os
  {
    assert rest in Rests(os, t, b) <==> Output(t, b, rest) in os;
    if Output(t, b, rest) in os {
      assert OutputTouched(os, t);
    }
    if t in s && s[t].outputs.Some? {
      var listed := OutputField(s[t].outputs.value, b);
      assert ListsOutputs(os, t, b, listed);
      assert rest in listed <==> rest in multiset(listed);
    }
  }

  /* ---------- one result for every order ---------- */

  lemma {:induction false} CollectJoined<A, B>(xs: seq<A>, ys: seq<A>, f: A -> seq<B>)
    ensures Collect(xs + ys, f) == Collect(xs, f) + Collect(ys, f)
  {
    if ys == [] {
      assert xs + ys == xs;
    } else {
      CollectJoined(xs, ys[..|ys| - 1], f);
      assert (xs + ys)[..|xs + ys| - 1] == xs + ys[..|ys| - 1];
    }
  }

  lemma WithoutOne<A>(xs: seq<A>, k: nat)
    requires k < |xs|
    ensures multiset(xs[..k] + xs[k + 1..]) == multiset(xs) - multiset{xs[k]}
  {
    assert xs == xs[..k] + [xs[k]] + xs[k + 1..];
  }

  lemma MiddleOut<B>(a: seq<B>, x: seq<B>, b: seq<B>)
    ensures multiset(a + x + b) == multiset(a + b) + multiset(x)
  {
  }

  lemma CollectAround<A, B>(a: seq<A>, x: A, b: seq<A>, f: A -> seq<B>)
    ensures Collect(a + [x] + b, f) == Collect(a, f) + f(x) + Collect(b, f)
  {
    CollectJoined(a + [x], b, f);
    Appended(a, x, f);
  }

  lemma CollectWithout<A, B>(xs: seq<A>, a: seq<A>, x: A, b: seq<A>, f: A -> seq<B>)
    requires xs == a + [x] + b
    ensures multiset(Collect(xs, f)) == multiset(Collect(a + b, f)) + multiset(f(x))
  {
    CollectAround(a, x, b, f);
    CollectJoined(a, b, f);
    MiddleOut(Collect(a, f), f(x), Collect(b, f));
  }

  lemma SplitAround<A>(xs: seq<A>, k: nat)
    requires k < |xs|
    ensures xs == xs[..k] + [xs[k]] + xs[k + 1..]
  {
  }

  /** What is collected does not depend on the order. */
  lemma {:induction false} CollectShuffled<A, B>(xs: seq<A>, ys: seq<A>, f: A -> seq<B>)
    requires multiset(xs) == multiset(ys)
    ensures multiset(Collect(xs, f)) == multiset(Collect(ys, f))
  {
    if xs == [] {
      assert |multiset(ys)| == |ys|;
    } else {
      var n := |xs| - 1;
      assert xs[n] in multiset(ys);
      var k :| 0 <= k < |ys| && ys[k] == xs[n];
      assert xs[..n] + xs[n + 1..] == xs[..n];
      WithoutOne(xs, n);
      WithoutOne(ys, k);
      CollectShuffled(xs[..n], ys[..k] + ys[k + 1..], f);
      SplitAround(ys, k);
      CollectWithout(ys, ys[..k], ys[k], ys[k + 1..], f);
    }
  }

  /** No two moves end at the same address. */
  ghost predicate DistinctMoves(items: seq<Item>) {
    forall i, j :: 0 <= i < j < |items| && items[i].move.Some? && items[j].move.Some? ==> items[i].move.value.to != items[j].move.value.to
  }

  lemma {:induction false} MoveComesFrom(items: seq<Item>, t: Target, m: Move) returns (k: nat)
    requires m in Collect(items, MovedIn(t))
    ensures k < |items| && items[k].move == Some(m)
  {
    k := |items| - 1;
    if m !in MovedIn(t)(items[k]) {
      k := MoveComesFrom(items[..|items| - 1], t, m);
    }
  }

  lemma MovesDiffer(items: seq<Item>, t: Target, x: Move, y: Move)
    requires DistinctMoves(items) && x in Collect(items, MovedIn(t)) && y in Collect(items, MovedIn(t)) && x.to == y.to
    ensures x == y
  {
    var i := MoveComesFrom(items, t, x);
    var j := MoveComesFrom(items, t, y);
  }

  lemma SameSorted(a: seq<Move>, b: seq<Move>)
    requires multiset(a) == multiset(b) && forall x, y :: x in a && y in a && x.to == y.to ==> x == y
    ensures Sorting.Sort(a, Destination) == Sorting.Sort(b, Destination)
  {
    var l, r := Sorting.Sort(a, Destination), Sorting.Sort(b, Destination);
    Sorting.SortSorts(a, Destination);
    Sorting.SortSorts(b, Destination);
    forall x, y | x in l && y in l && x.to == y.to ensures x == y {
      assert x in multiset(a) && y in multiset(a);
    }
    Sorting.SortedIsUnique(l, r, Destination);
  }

  lemma SameMoves(xs: seq<Item>, ys: seq<Item>, t: Target)
    requires multiset(xs) == multiset(ys) && (xs == ys || DistinctMoves(xs))
    ensures Sorting.Sort(Collect(xs, MovedIn(t)), Destination) == Sorting.Sort(Collect(ys, MovedIn(t)), Destination)
  {
    if xs != ys {
      var a, b := Collect(xs, MovedIn(t)), Collect(ys, MovedIn(t));
      CollectShuffled(xs, ys, MovedIn(t));
      forall x, y | x in a && y in a && x.to == y.to ensures x == y {
        MovesDiffer(xs, t, x, y);
      }
      SameSorted(a, b);
    }
  }

  lemma SameOutputs(os: set<Output>, t: Target, o: OutputChanges, p: OutputChanges)
    requires forall b :: ListsOutputs(os, t, b, OutputField(o, b))
    requires forall b :: ListsOutputs(os, t, b, OutputField(p, b))
    ensures o == p
  {
    forall b ensures OutputField(o, b) == OutputField(p, b) {
      assert ListsOutputs(os, t, b, OutputField(o, b)) && ListsOutputs(os, t, b, OutputField(p, b));
      Sorting.SortedIsUnique(OutputField(o, b), OutputField(p, b), Itself);
    }
    assert OutputField(o, Added) == OutputField(p, Added);
    assert OutputField(o, Changed) == OutputField(p, Changed);
    assert OutputField(o, Destroyed) == OutputField(p, Destroyed);
  }

  lemma SameLists(xs: seq<Item>, ys: seq<Item>, t: Target, b: Bucket, l: seq<string>, r: seq<string>)
    requires multiset(xs) == multiset(ys) && Lists(xs, t, b, l) && Lists(ys, t, b, r)
    ensures l == r
  {
    CollectShuffled(xs, ys, Chosen({t}, {b}));
    Sorting.SortedIsUnique(l, r, Itself);
  }

  lemma SameFields(m: ModuleChanges, n: ModuleChanges)
    requires (forall b :: Field(m, b) == Field(n, b)) && m.moved == n.moved && m.outputs == n.outputs
    ensures m == n
  {
    assert Field(m, Added) == Field(n, Added) && Field(m, Changed) == Field(n, Changed);
    assert Field(m, Destroyed) == Field(n, Destroyed) && Field(m, Replaced) == Field(n, Replaced);
    assert Field(m, Forgotten) == Field(n, Forgotten) && Field(m, Imported) == Field(n, Imported);
  }

  lemma SameEntry(xs: seq<Item>, ys: seq<Item>, os: set<Output>, t: Target, m: ModuleChanges, n: ModuleChanges)
    requires multiset(xs) == multiset(ys) && (xs == ys || DistinctMoves(xs))
    requires IsEntry(xs, os, t, m) && IsEntry(ys, os, t, n)
    ensures m == n
  {
    forall b ensures Field(m, b) == Field(n, b) {
      SameLists(xs, ys, t, b, Field(m, b), Field(n, b));
    }
    SameMoves(xs, ys, t);
    if m.outputs.Some? {
      SameOutputs(os, t, m.outputs.value, n.outputs.value);
    }
    SameFields(m, n);
  }

  lemma TouchedShuffled(xs: seq<Item>, ys: seq<Item>, t: Target)
    requires multiset(xs) == multiset(ys) && Touched(xs, t)
    ensures Touched(ys, t)
  {
    var k :| 0 <= k < |xs| && Relevant(xs[k]) && xs[k].target == t;
    assert xs[k] in multiset(ys);
    var j :| 0 <= j < |ys| && ys[j] == xs[k];
  }

  /** The rollup is unique, and the same for every order of the items when no two moves share a destination. */
  lemma OneRollup(xs: seq<Item>, ys: seq<Item>, os: set<Output>, s: Summary, r: Summary)
    requires multiset(xs) == multiset(ys) && (xs == ys || DistinctMoves(xs))
    requires IsRollup(xs, os, s) && IsRollup(ys, os, r)
    ensures s == r
  {
    forall t ensures Touched(xs, t) <==> Touched(ys, t) {
      if Touched(xs, t) {
        TouchedShuffled(xs, ys, t);
      }
      if Touched(ys, t) {
        TouchedShuffled(ys, xs, t);
      }
    }
    assert s.Keys == r.Keys;
    forall t | t in s ensures s[t] == r[t] {
      SameEntry(xs, ys, os, t, s[t], r[t]);
    }
  }

  /* ---------- nothing is lost, doubled or empty ---------- */

  lemma {:induction false} CollectSplit<A, B>(s: seq<A>, f: A -> seq<B>, g: A -> seq<B>, h: A -> seq<B>)
    requires forall x :: x in s ==> multiset(f(x)) == multiset(g(x)) + multiset(h(x))
    ensures multiset(Collect(s, f)) == multiset(Collect(s, g)) + multiset(Collect(s, h))
  {
    if s != [] {
      CollectSplit(s[..|s| - 1], f, g, h);
    }
  }

  lemma {:induction false} CollectSame<A, B>(s: seq<A>, f: A -> seq<B>, g: A -> seq<B>)
    requires forall x :: x in s ==> f(x) == g(x)
    ensures Collect(s, f) == Collect(s, g)
  {
    if s != [] {
      CollectSame(s[..|s| - 1], f, g);
    }
  }

  lemma {:induction false} NothingChosen<A, B>(s: seq<A>, f: A -> seq<B>)
    requires forall x :: x in s ==> f(x) == []
    ensures Collect(s, f) == []
  {
    if s != [] {
      NothingChosen(s[..|s| - 1], f);
    }
  }

  const ALL_BUCKETS := {Added} + {Changed} + {Destroyed} + {Replaced} + {Forgotten} + {Imported}

  lemma EveryBucket(b: Bucket)
    ensures b in ALL_BUCKETS
  {
    match b {
      case Added => case Changed => case Destroyed => case Replaced => case Forgotten => case Imported =>
    }
  }

  /** The addresses in the six action lists of one module. */
  ghost function InBuckets(m: ModuleChanges): multiset<string> {
    multiset(Field(m, Added)) + multiset(Field(m, Changed)) + multiset(Field(m, Destroyed))
    + multiset(Field(m, Replaced)) + multiset(Field(m, Forgotten)) + multiset(Field(m, Imported))
  }

  /** The addresses in the action lists of the given modules. */
  ghost function Listed(s: Summary, ts: set<Target>): multiset<string>
    requires ts <= s.Keys
  {
    if ts == {} then multiset{}
    else
      var t :| t in ts;
      InBuckets(s[t]) + Listed(s, ts - {t})
  }

  lemma BucketsSplit(items: seq<Item>, ts: set<Target>, bs: set<Bucket>, b: Bucket)
    requires b !in bs
    ensures multiset(Collect(items, Chosen(ts, bs + {b})))
            == multiset(Collect(items, Chosen(ts, bs))) + multiset(Collect(items, Chosen(ts, {b})))
  {
    CollectSplit(items, Chosen(ts, bs + {b}), Chosen(ts, bs), Chosen(ts, {b}));
  }

  lemma TargetsSplit(items: seq<Item>, ts: set<Target>, t: Target, bs: set<Bucket>)
    requires t in ts
    ensures multiset(Collect(items, Chosen(ts, bs)))
            == multiset(Collect(items, Chosen({t}, bs))) + multiset(Collect(items, Chosen(ts - {t}, bs)))
  {
    CollectSplit(items, Chosen(ts, bs), Chosen({t}, bs), Chosen(ts - {t}, bs));
  }

  ghost function ChosenIn(items: seq<Item>, t: Target, b: Bucket): multiset<string> {
    multiset(Collect(items, Chosen({t}, {b})))
  }

  lemma SomeBuckets(items: seq<Item>, t: Target)
    ensures multiset(Collect(items, Chosen({t}, ALL_BUCKETS)))
            == ChosenIn(items, t, Added) + ChosenIn(items, t, Changed) + ChosenIn(items, t, Destroyed)
               + ChosenIn(items, t, Replaced) + ChosenIn(items, t, Forgotten) + ChosenIn(items, t, Imported)
  {
    BucketsSplit(items, {t}, {Added}, Changed);
    BucketsSplit(items, {t}, {Added} + {Changed}, Destroyed);
    BucketsSplit(items, {t}, {Added} + {Changed} + {Destroyed}, Replaced);
    BucketsSplit(items, {t}, {Added} + {Changed} + {Destroyed} + {Replaced}, Forgotten);
    BucketsSplit(items, {t}, {Added} + {Changed} + {Destroyed} + {Replaced} + {Forgotten}, Imported);
  }

  lemma EntryListed(items: seq<Item>, os: set<Output>, t: Target, m: ModuleChanges)
    requires IsEntry(items, os, t, m)
    ensures InBuckets(m) == multiset(Collect(items, Chosen({t}, ALL_BUCKETS)))
  {
    SomeBuckets(items, t);
    forall b ensures multiset(Field(m, b)) == ChosenIn(items, t, b) {
      assert Lists(items, t, b, Field(m, b));
    }
  }

  lemma {:induction false} SomeListed(items: seq<Item>, os: set<Output>, s: Summary, ts: set<Target>)
    requires ts <= s.Keys && forall t :: t in ts ==> IsEntry(items, os, t, s[t])
    ensures Listed(s, ts) == multiset(Collect(items, Chosen(ts, ALL_BUCKETS)))
    decreases ts
  {
    if ts == {} {
      NothingChosen(items, Chosen(ts, ALL_BUCKETS));
    } else {
      var t :| t in ts && Listed(s, ts) == InBuckets(s[t]) + Listed(s, ts - {t});
      EntryListed(items, os, t, s[t]);
      SomeListed(items, os, s, ts - {t});
      TargetsSplit(items, ts, t, ALL_BUCKETS);
    }
  }

  /** The address of a change that has a bucket; a pure move has none. */
  ghost function Counted(i: Item): seq<string> {
    if i.bucket.Some? then [i.address] else []
  }

  lemma CountedSomewhere(items: seq<Item>, ts: set<Target>)
    requires forall i :: i in items && i.bucket.Some? ==> i.target in ts
    ensures Collect(items, Chosen(ts, ALL_BUCKETS)) == Collect(items, Counted)
  {
    forall b: Bucket {
      EveryBucket(b);
    }
    CollectSame(items, Chosen(ts, ALL_BUCKETS), Counted);
  }

  /** The six action lists of all entries together hold exactly the counted addresses. */
  lemma AllListed(items: seq<Item>, os: set<Output>, s: Summary)
    requires IsRollup(items, os, s)
    ensures Listed(s, s.Keys) == multiset(Collect(items, Counted))
  {
    SomeListed(items, os, s, s.Keys);
    CountedSomewhere(items, s.Keys) by {
      forall i | i in items && i.bucket.Some? ensures i.target in s.Keys {
        assert Touched(items, i.target);
      }
    }
  }

  lemma {:induction false} CollectHas<A, B>(s: seq<A>, k: nat, f: A -> seq<B>, x: B)
    requires k < |s| && x in f(s[k])
    ensures x in Collect(s, f)
  {
    if k < |s| - 1 {
      CollectHas(s[..|s| - 1], k, f, x);
    }
  }

  ghost predicate SaysSomething(m: ModuleChanges) {
    InBuckets(m) != multiset{} || m.moved != [] || (m.outputs.Some? && m.outputs.value != NO_OUTPUTS)
  }

  lemma ItemSays(items: seq<Item>, os: set<Output>, k: nat, m: ModuleChanges)
    requires k < |items| && Relevant(items[k]) && IsEntry(items, os, items[k].target, m)
    ensures InBuckets(m) != multiset{} || m.moved != []
  {
    var i := items[k];
    if i.bucket.Some? {
      EveryBucket(i.bucket.value);
      CollectHas(items, k, Chosen({i.target}, ALL_BUCKETS), i.address);
      EntryListed(items, os, i.target, m);
      assert i.address in InBuckets(m);
    } else {
      var moves := Collect(items, MovedIn(i.target));
      CollectHas(items, k, MovedIn(i.target), i.move.value);
      Sorting.SortSorts(moves, Destination);
      assert |multiset(m.moved)| == |multiset(moves)|;
    }
  }

  lemma OutputSays(os: set<Output>, o: Output, c: OutputChanges)
    requires o in os && IsOutput(o) && ListsOutputs(os, o.target, o.kind, OutputField(c, o.kind))
    ensures c != NO_OUTPUTS
  {
    assert o.rest in Rests(os, o.target, o.kind);
    assert o.rest in multiset(OutputField(c, o.kind));
  }

  /** An entry exists only for a module something happens to. */
  lemma EntrySays(items: seq<Item>, os: set<Output>, s: Summary, t: Target)
    requires IsRollup(items, os, s) && t in s && forall o :: o in os ==> IsOutput(o)
    ensures SaysSomething(s[t])
  {
    if Touched(items, t) {
      var k :| 0 <= k < |items| && Relevant(items[k]) && items[k].target == t;
      ItemSays(items, os, k, s[t]);
    } else {
      var o :| o in os && o.target == t;
      OutputSays(os, o, s[t].outputs.value);
    }
  }
}
