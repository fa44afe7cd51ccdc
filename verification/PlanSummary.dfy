/** The summary of a plan: every resource and output change classified and rolled up to its module. */
module PlanSummary {
  import opened Versions
  import opened Rollup
  import opened Strings

  datatype Change = Change(address: string, previous: string, moduleAddress: string, actions: seq<string>,
                           importing: bool)

  function ClassifyResource(actions: seq<string>): Option<Bucket> {
    if |actions| == 1 then
      (if actions[0] == "create" then Some(Added)
       else if actions[0] == "update" then Some(Changed)
       else if actions[0] == "delete" then Some(Destroyed)
       else if actions[0] == "forget" then Some(Forgotten)
       else None)
    else if actions == ["delete", "create"] || actions == ["create", "delete"] then Some(Replaced)
    else None
  }

  function ClassifyOutput(actions: seq<string>): Option<Bucket> {
    if |actions| == 1 then
      (if actions[0] == "create" then Some(Added)
       else if actions[0] == "update" then Some(Changed)
       else if actions[0] == "delete" then Some(Destroyed)
       else None)
    else None
  }

  const MODULE_PREFIX := "module."

  /** Submodules at any depth roll up to their first-level ancestor. */
  function ResolveModule(address: string): Target {
    if address == "" then Root
    else
      var s := if MODULE_PREFIX <= address then address[|MODULE_PREFIX|..] else address;
      Named(Before(Before(s, '.'), '['))
  }

  const SEPARATOR := "__"

  /** Where the first separator starts; the length of the name if there is none. */
  function Separator(name: string): (i: nat)
    ensures i <= |name| && (i < |name| ==> At(name, SEPARATOR, i))
  {
    FoundAt(name, SEPARATOR);
    match Find(name, SEPARATOR)
    case Some(i) => i
    case None => |name|
  }

  function OutputTarget(name: string): Target {
    var i := Separator(name);
    if i == 0 || i == |name| then Root else Named(name[..i])
  }

  function OutputRest(name: string): string {
    var i := Separator(name);
    if i == 0 || i == |name| then name else name[i + 2..]
  }

  predicate IsMove(c: Change) {
    c.previous != "" && c.previous != c.address
  }

  /** An import takes the place of the action. */
  function Classify(c: Change): Item {
    Item(ResolveModule(c.moduleAddress), c.address,
         if c.importing then Some(Imported) else ClassifyResource(c.actions),
         if IsMove(c) then Some(Move(c.previous, c.address)) else None)
  }

  function ClassifyNamed(name: string, actions: seq<string>): Option<Output> {
    match ClassifyOutput(actions)
    case Some(kind) => Some(Output(OutputTarget(name), kind, OutputRest(name)))
    case None => None
  }

  function AsItem(c: Change): seq<Item> { [Classify(c)] }

  /** The classified resource changes. */
  function Items(cs: seq<Change>): seq<Item> { Collect(cs, AsItem) }

  /** The classified output changes. */
  ghost function OutputsOf(outputs: map<string, seq<string>>, names: set<string>): set<Output> {
    set name | name in names && name in outputs && ClassifyNamed(name, outputs[name]).Some?
      :: ClassifyNamed(name, outputs[name]).value
  }

  ghost predicate IsSummary(cs: seq<Change>, outputs: map<string, seq<string>>, s: Summary) {
    IsRollup(Items(cs), OutputsOf(outputs, outputs.Keys), s)
  }

  /** Module and rest determine the output name. */
  lemma OutputNameIs(name: string)
    ensures name == match OutputTarget(name)
                    case Root => OutputRest(name)
                    case Named(m) => m + "__" + OutputRest(name)
  {
    var i := Separator(name);
    if i != 0 && i != |name| {
      assert name == name[..i] + name[i..i + 2] + name[i + 2..];
    }
  }

  /** Exactly when the name of a module's output is taken apart as it was put together. */
  lemma OutputNameRoundTrip(m: string, rest: string)
    ensures OutputTarget(m + SEPARATOR + rest) == Named(m) && OutputRest(m + SEPARATOR + rest) == rest <==>
            m != "" && forall i: nat :: i < |m| ==> !At(m + SEPARATOR, SEPARATOR, i)
  {
    var name := m + SEPARATOR + rest;
    var first := FirstAt(name, SEPARATOR, |m|);
    NotEarlier(name, SEPARATOR);
    forall i: nat | i < |m| ensures At(name, SEPARATOR, i) <==> At(m + SEPARATOR, SEPARATOR, i) {
      assert name[i..i + 2] == (m + SEPARATOR)[i..i + 2];
    }
    assert name[..|m|] == m && name[|m| + 2..] == rest;
  }

  /** Whatever follows the name of a first-level module, an index or submodules at any depth, belongs to it. */
  lemma RollsUp(name: string, deeper: string)
    requires '.' !in name && '[' !in name && (deeper == "" || deeper[0] == '.' || deeper[0] == '[')
    ensures ResolveModule("module." + name + deeper) == Named(name)
    ensures ResolveModule("") == Root
    ensures name + deeper != "" && !("module." <= name + deeper) ==> ResolveModule(name + deeper) == Named(name)
  {
    var s := name + deeper;
    assert ("module." + name + deeper)[|MODULE_PREFIX|..] == s;
    if deeper != "" && deeper[0] == '.' {
      BeforeStops(name, deeper, '.');
      BeforeStops(name, "", '[');
      assert name + "" == name;
    } else {
      BeforePasses(name, deeper, '.');
      BeforeStops(name, Before(deeper, '.'), '[');
    }
  }

  /** Outputs are classified like resources, as far as outputs go; the order of a replacement does not matter. */
  lemma ClassifiedAlike(actions: seq<string>, a: string, b: string)
    ensures ClassifyOutput(actions) == match ClassifyResource(actions)
                                       case Some(Forgotten) => None
                                       case Some(Replaced) => None
                                       case kind => kind
    ensures ClassifyResource([a, b]) == ClassifyResource([b, a])
    ensures ClassifyResource(["no-op"]) == None && ClassifyResource(["read"]) == None
  {
    assert ["no-op"][0] == "no-op" && ["read"][0] == "read";
  }

  /** Different outputs stay different, so no list loses one. */
  lemma OutputsGrow(outputs: map<string, seq<string>>, names: set<string>, name: string)
    requires name in outputs && name !in names
    ensures match ClassifyNamed(name, outputs[name])
            case Some(o) => o !in OutputsOf(outputs, names) && OutputsOf(outputs, names + {name}) == OutputsOf(outputs, names) + {o}
            case None => OutputsOf(outputs, names + {name}) == OutputsOf(outputs, names)
  {
    var named := ClassifyNamed(name, outputs[name]);
    if named.Some? && named.value in OutputsOf(outputs, names) {
      var other :| other in names && other in outputs && ClassifyNamed(other, outputs[other]) == named;
      OutputNameIs(name);
      OutputNameIs(other);
    }
    if named.Some? {
      assert name in names + {name};
    }
  }

  lemma OneMore(cs: seq<Change>, c: Change)
    ensures Items(cs + [c]) == Items(cs) + [Classify(c)]
  {
    Appended(cs, c, AsItem);
  }

  method AddResource(ghost items: seq<Item>, item: Item, s: Summary) returns (next: Summary)
    requires Collected(items, {}, s)
    ensures Collected(items + [item], {}, next)
  {
    ItemCollected(items, item, s);
    if item.bucket.None? && item.move.None? {
      return s;
    }
    return s[item.target := AddItem(Entry(s, item.target), item)];
  }

  lemma OneMoreOf(cs: seq<Change>, i: nat)
    requires i < |cs|
    ensures Items(cs[..i + 1]) == Items(cs[..i]) + [Classify(cs[i])]
  {
    assert cs[..i + 1] == cs[..i] + [cs[i]];
    OneMore(cs[..i], cs[i]);
  }

  method AddResources(cs: seq<Change>) returns (s: Summary)
    ensures Collected(Items(cs), {}, s)
  {
    s := map[];
    NothingCollected();
    for i := 0 to |cs|
      invariant Collected(Items(cs[..i]), {}, s)
    {
      s := AddResource(Items(cs[..i]), Classify(cs[i]), s);
      OneMoreOf(cs, i);
    }
    assert cs[..|cs|] == cs;
  }

  method AddOutputs(ghost items: seq<Item>, outputs: map<string, seq<string>>, s0: Summary) returns (s: Summary)
    requires Collected(items, {}, s0)
    ensures Collected(items, OutputsOf(outputs, outputs.Keys), s)
  {
    s := s0;
    var todo := outputs.Keys;
    ghost var names: set<string> := {};
    while todo != {}
      invariant names !! todo && names + todo == outputs.Keys
      invariant Collected(items, OutputsOf(outputs, names), s)
    {
      var name :| name in todo;
      var named := ClassifyNamed(name, outputs[name]);
      OutputsGrow(outputs, names, name);
      if named.Some? {
        OutputCollected(items, OutputsOf(outputs, names), named.value, s);
        s := s[named.value.target := AddOutput(Entry(s, named.value.target), named.value)];
      }
      todo, names := todo - {name}, names + {name};
    }
  }

  /** Builds the summary; the outputs are walked in an arbitrary order. */
  method BuildPlanSummary(cs: seq<Change>, outputs: map<string, seq<string>>) returns (s: Summary)
    ensures IsSummary(cs, outputs, s)
  {
    s := AddResources(cs);
    s := AddOutputs(Items(cs), outputs, s);
    SortedSummary(Items(cs), OutputsOf(outputs, outputs.Keys), s);
    s := map t | t in s :: SortEntry(s[t]);
  }

  /* ---------- the promises ---------- */

  ghost predicate DistinctAddresses(cs: seq<Change>) {
    forall i, j :: 0 <= i < j < |cs| ==> cs[i].address != cs[j].address
  }

  lemma {:induction false} ItemsAt(cs: seq<Change>)
    ensures |Items(cs)| == |cs| && forall k :: 0 <= k < |cs| ==> Items(cs)[k] == Classify(cs[k])
  {
    if cs != [] {
      ItemsAt(cs[..|cs| - 1]);
      assert Items(cs) == Items(cs[..|cs| - 1]) + [Classify(cs[|cs| - 1])];
    }
  }

  /** One summary for every walk of the outputs, and, when addresses are distinct, for every order of the changes. */
  lemma Canonical(xs: seq<Change>, ys: seq<Change>, outputs: map<string, seq<string>>, s: Summary, r: Summary)
    requires multiset(xs) == multiset(ys) && (xs == ys || DistinctAddresses(xs))
    requires IsSummary(xs, outputs, s) && IsSummary(ys, outputs, r)
    ensures s == r
  {
    CollectShuffled(xs, ys, AsItem);
    ItemsAt(xs);
    OneRollup(Items(xs), Items(ys), OutputsOf(outputs, outputs.Keys), s, r);
  }

  /** The list that a change belongs to: an import whatever the action, or one of the five actions. */
  ghost predicate Lands(c: Change, b: Bucket) {
    match b
    case Imported => c.importing
    case Added => !c.importing && c.actions == ["create"]
    case Changed => !c.importing && c.actions == ["update"]
    case Destroyed => !c.importing && c.actions == ["delete"]
    case Forgotten => !c.importing && c.actions == ["forget"]
    case Replaced => !c.importing && (c.actions == ["delete", "create"] || c.actions == ["create", "delete"])
  }

  lemma LandsIs(c: Change, b: Bucket)
    ensures Classify(c).bucket == Some(b) <==> Lands(c, b)
  {
    if |c.actions| == 1 {
      assert c.actions == [c.actions[0]];
    }
    assert ["create"][0] == "create" && ["update"][0] == "update" && ["delete"][0] == "delete" && ["forget"][0] == "forget";
  }

  /** Change `k` of a module is in this list, with this address. */
  ghost predicate PutIn(cs: seq<Change>, k: nat, t: Target, b: Bucket, a: string) {
    k < |cs| && Lands(cs[k], b) && ResolveModule(cs[k].moduleAddress) == t && cs[k].address == a
  }

  lemma PutInIs(cs: seq<Change>, t: Target, b: Bucket, a: string)
    ensures a in Collect(Items(cs), Chosen({t}, {b})) <==> exists k: nat :: PutIn(cs, k, t, b, a)
  {
    var items := Items(cs);
    ItemsAt(cs);
    InCollect(items, Chosen({t}, {b}), a);
    forall k: nat | k < |cs| ensures PutIn(cs, k, t, b, a) <==> a in Chosen({t}, {b})(items[k]) {
      LandsIs(cs[k], b);
    }
    if k: nat :| PutIn(cs, k, t, b, a) {
      assert a in Chosen({t}, {b})(items[k]);
    }
  }

  /** Every list of every entry holds exactly the addresses of the changes that belong there. */
  lemma ListedExactly(cs: seq<Change>, outputs: map<string, seq<string>>, s: Summary, t: Target, b: Bucket, a: string)
    requires IsSummary(cs, outputs, s)
    ensures t in s && a in Field(s[t], b) <==> exists k: nat :: PutIn(cs, k, t, b, a)
  {
    PutInIs(cs, t, b, a);
    ChosenIsListed(Items(cs), OutputsOf(outputs, outputs.Keys), s, t, b, a);
  }

  /** Every list of every entry is in order: addresses by themselves, moves by the new address. */
  lemma ListsInOrder(cs: seq<Change>, outputs: map<string, seq<string>>, s: Summary, t: Target, b: Bucket)
    requires IsSummary(cs, outputs, s) && t in s
    ensures var listed := Field(s[t], b);
            forall i, j :: 0 <= i < j < |listed| ==> Sorting.AtMost(listed[i], listed[j])
    ensures var moved := s[t].moved;
            forall i, j :: 0 <= i < j < |moved| ==> Sorting.AtMost(moved[i].to, moved[j].to)
  {
    var items := Items(cs);
    assert IsEntry(items, OutputsOf(outputs, outputs.Keys), t, s[t]);
    assert Lists(items, t, b, Field(s[t], b));
    Sorting.SortSorts(Collect(items, MovedIn(t)), Destination);
    var listed, moved := Field(s[t], b), s[t].moved;
    forall i, j | 0 <= i < j < |listed| ensures Sorting.AtMost(listed[i], listed[j]) {
      assert Sorting.AtMost(Itself(listed[i]), Itself(listed[j]));
    }
    forall i, j | 0 <= i < j < |moved| ensures Sorting.AtMost(moved[i].to, moved[j].to) {
      assert Sorting.AtMost(Destination(moved[i]), Destination(moved[j]));
    }
  }

  /** A change with a previous address of another name is listed as a move, beside its action. */
  lemma MovedExactly(cs: seq<Change>, outputs: map<string, seq<string>>, s: Summary, t: Target, m: Move)
    requires IsSummary(cs, outputs, s)
    ensures t in s && m in s[t].moved <==> exists k: nat :: MovesTo(cs, k, t, m)
  {
    MovesIs(cs, t, m);
    MoveIsListed(Items(cs), OutputsOf(outputs, outputs.Keys), s, t, m);
  }

  ghost predicate MovesTo(cs: seq<Change>, k: nat, t: Target, m: Move) {
    && k < |cs| && ResolveModule(cs[k].moduleAddress) == t && m == Move(cs[k].previous, cs[k].address)
    && cs[k].previous != "" && cs[k].previous != cs[k].address
  }

  lemma MovesIs(cs: seq<Change>, t: Target, m: Move)
    ensures m in Collect(Items(cs), MovedIn(t)) <==> exists k: nat :: MovesTo(cs, k, t, m)
  {
    var items := Items(cs);
    ItemsAt(cs);
    InCollect(items, MovedIn(t), m);
    forall k: nat | k < |cs| ensures MovesTo(cs, k, t, m) <==> m in MovedIn(t)(items[k]) {
    }
    if k: nat :| MovesTo(cs, k, t, m) {
      assert m in MovedIn(t)(items[k]);
    }
  }

  /** An output of this name and action belongs to this module under this name. */
  ghost predicate OutputPut(outputs: map<string, seq<string>>, name: string, t: Target, action: string, rest: string) {
    name in outputs && outputs[name] == [action] && OutputTarget(name) == t && OutputRest(name) == rest
  }

  lemma OutputPutIs(outputs: map<string, seq<string>>, t: Target, b: Bucket, action: string, rest: string)
    requires (b == Added && action == "create") || (b == Changed && action == "update") || (b == Destroyed && action == "delete")
    ensures Output(t, b, rest) in OutputsOf(outputs, outputs.Keys) <==> exists name :: OutputPut(outputs, name, t, action, rest)
  {
    forall name | name in outputs
      ensures ClassifyNamed(name, outputs[name]) == Some(Output(t, b, rest)) <==> OutputPut(outputs, name, t, action, rest)
    {
      if |outputs[name]| == 1 {
        assert outputs[name] == [outputs[name][0]];
      }
    }
  }

  /** The outputs of a module are listed by action, under their names without the module. */
  lemma OutputsExactly(cs: seq<Change>, outputs: map<string, seq<string>>, s: Summary, t: Target, b: Bucket, action: string,
                       rest: string)
    requires IsSummary(cs, outputs, s)
    requires (b == Added && action == "create") || (b == Changed && action == "update") || (b == Destroyed && action == "delete")
    ensures t in s && s[t].outputs.Some? && rest in OutputField(s[t].outputs.value, b) <==>
            exists name :: OutputPut(outputs, name, t, action, rest)
  {
    OutputPutIs(outputs, t, b, action, rest);
    OutputIsListed(Items(cs), OutputsOf(outputs, outputs.Keys), s, t, b, rest);
  }

  /** The address of a change that is not ignored and more than a move. */
  function Acted(c: Change): seq<string> {
    if c.importing || ClassifyResource(c.actions).Some? then [c.address] else []
  }

  lemma {:induction false} ActedItems(cs: seq<Change>)
    ensures Collect(cs, Acted) == Collect(Items(cs), Counted)
  {
    if cs != [] {
      var n := |cs| - 1;
      ActedItems(cs[..n]);
      Appended(Items(cs[..n]), Classify(cs[n]), Counted);
    }
  }

  /** The six action lists over all entries hold exactly the addresses of the changes acted on. */
  lemma Conserved(cs: seq<Change>, outputs: map<string, seq<string>>, s: Summary)
    requires IsSummary(cs, outputs, s)
    ensures Listed(s, s.Keys) == multiset(Collect(cs, Acted))
  {
    ActedItems(cs);
    AllListed(Items(cs), OutputsOf(outputs, outputs.Keys), s);
  }

  /** No entry is empty. */
  lemma NoEmptyEntry(cs: seq<Change>, outputs: map<string, seq<string>>, s: Summary, t: Target)
    requires IsSummary(cs, outputs, s) && t in s
    ensures SaysSomething(s[t])
  {
    EntrySays(Items(cs), OutputsOf(outputs, outputs.Keys), s, t);
  }
}
