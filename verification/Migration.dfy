/** Which resources of a state file an import configuration does not cover, and whether the reported items
    close the gap. */
module Migration {
  import opened Strings
  import opened Versions

  /** An index key as decoded: none, a text, a number in its printed form, or anything else in its printed form. */
  datatype IndexKey = NoKey | Str(text: string) | Num(text: string) | Other(text: string)

  datatype Resource = Resource(kind: string, name: string, module_: string, managed: bool, instances: seq<IndexKey>)

  datatype Location = Location(module_: string, name: string, key: IndexKey, keys: seq<IndexKey>)

  datatype Item = Item(kind: string, name: string, module_: string, keys: seq<IndexKey>, source: Location, target: Location)

  datatype ResourceKey = ResourceKey(kind: string, module_: string, name: string)

  type Coverage = map<ResourceKey, seq<IndexKey>>

  const NOWHERE := Location("", "", NoKey, [])

  /** Reads a decimal number and prints it again; None if the text is no number. */
  type Atoi = string -> Option<string>

  function KeyOf(r: Resource): ResourceKey {
    ResourceKey(r.kind, r.module_, r.name)
  }

  /** A comparison of an instance key with a configured key; None for incompatible types. */
  function Compare(a: IndexKey, b: IndexKey): Option<bool> {
    match a
    case NoKey => if b.NoKey? then Some(true) else None
    case Str(t) => if b.Str? then Some(t == b.text) else None
    case Num(t) => Some(!b.NoKey? && t == b.text)
    case Other(_) => None
  }

  /* ---------- items ---------- */

  predicate NoSpace(s: string) {
    forall n :: 0 <= n < |s| ==> s[n] !in {' ', '\t', '\n', '\r', '\U{0C}'}
  }

  /** Where the index part of a name starts: the first "[" from `i` on that is followed by a text without blanks
      and a final "]". */
  function IndexFrom(name: string, i: nat): (r: Option<nat>)
    requires i <= |name|
    ensures r.Some? ==> i <= r.value && r.value + 2 < |name| && forall j :: i <= j < r.value ==> name[j] != '\n'
    decreases |name| - i
  {
    if i + 2 >= |name| || name[i] == '\n' then None
    else if name[i] == '[' && name[|name| - 1] == ']' && NoSpace(name[i + 1..|name| - 1]) then Some(i)
    else IndexFrom(name, i + 1)
  }

  predicate HasIndex(name: string) {
    IndexFrom(name, 0).Some?
  }

  function ParseNameIndex(l: Location, atoi: Atoi): Result<Location> {
    match IndexFrom(l.name, 0)
    case None => Ok(l)
    case Some(i) =>
      if l.key != NoKey || l.keys != [] then Err("item name includes index but index keys already set")
      else
        var inner := l.name[i + 1..|l.name| - 1];
        Ok(l.(name := l.name[..i],
              key := match atoi(inner)
                     case Some(n) => Num(n)
                     case None => Str(Trim(Trim(inner, '"'), '\''))))
  }

  function Spread(item: Item, l: Location): Location {
    Location(if item.module_ != "" then item.module_ else l.module_,
             if item.name != "" then item.name else l.name,
             l.key,
             if item.keys != [] then item.keys else l.keys)
  }

  /** The item with its own name, module and keys spread over both locations. */
  function ResolveItem(item: Item, atoi: Atoi): Result<Item> {
    match ParseNameIndex(Spread(item, item.source), atoi)
    case Err(why) => Err(why)
    case Ok(source) =>
      match ParseNameIndex(Spread(item, item.target), atoi)
      case Err(why) => Err(why)
      case Ok(target) => Ok(item.(source := source, target := target))
  }

  function GetIndexKeys(item: Item): Result<seq<IndexKey>> {
    if item.source.keys == [] then
      Ok(if item.source.key != NoKey || item.target.key != NoKey then [item.source.key] else [])
    else if |item.source.keys| != |item.target.keys| then Err("source and destination index keys must have the same length")
    else Ok(item.source.keys)
  }

  lemma {:induction false} IndexFound(base: string, inner: string, from: nat)
    requires from <= |base| && '[' !in base && '\n' !in base && inner != "" && NoSpace(inner)
    ensures IndexFrom(base + "[" + inner + "]", from) == Some(|base|)
    decreases |base| - from
  {
    var name := base + "[" + inner + "]";
    if from == |base| {
      assert name[from + 1..|name| - 1] == inner;
    } else {
      assert name[from] == base[from];
      IndexFound(base, inner, from + 1);
    }
  }

  /** An index written behind a name is the index key of the name alone: a number if it reads as one, else the text
      without its quotes; and it must be the only one. */
  lemma IndexInName(base: string, inner: string, l: Location, atoi: Atoi)
    requires '[' !in base && '\n' !in base && inner != "" && NoSpace(inner)
    ensures var r := ParseNameIndex(l.(name := base + "[" + inner + "]"), atoi);
            && (r.Err? <==> l.key != NoKey || l.keys != [])
            && (r.Ok? ==> r.value.name == base && r.value.module_ == l.module_
                          && (atoi(inner).Some? ==> r.value.key == Num(atoi(inner).value))
                          && (atoi(inner).None? && '"' !in inner && '\'' !in inner ==> r.value.key == Str(inner)))
  {
    IndexFound(base, inner, 0);
    var name := base + "[" + inner + "]";
    assert name[..|base|] == base && name[|base| + 1..|name| - 1] == inner;
    if '"' !in inner && '\'' !in inner {
      NothingTrimmed(inner, '"');
      NothingTrimmed(inner, '\'');
    }
  }

  /* ---------- resources of an item ---------- */

  predicate IsCandidate(r: Resource, kind: string, module_: string) {
    r.managed && r.kind == kind && (module_ == "" || module_ == r.module_)
  }

  function Candidates(rs: seq<Resource>, kind: string, module_: string): seq<Resource> {
    if rs == [] then []
    else (if IsCandidate(rs[0], kind, module_) then [rs[0]] else []) + Candidates(rs[1..], kind, module_)
  }

  function Named(rs: seq<Resource>, name: string): seq<Resource> {
    if rs == [] then [] else if rs[0].name == name then [rs[0]] else Named(rs[1..], name)
  }

  /** All candidates, or the first with the name if one is given. */
  function Matching(rs: seq<Resource>, kind: string, l: Location): seq<Resource> {
    var all := Candidates(rs, kind, l.module_);
    if l.name == "" then all else Named(all, l.name)
  }

  lemma CandidatesNext(rs: seq<Resource>, i: nat, kind: string, l: Location)
    requires i < |rs|
    ensures var rest := Candidates(rs[i + 1..], kind, l.module_);
            && Candidates(rs[i..], kind, l.module_) == (if IsCandidate(rs[i], kind, l.module_) then [rs[i]] + rest else rest)
            && Named(Candidates(rs[i..], kind, l.module_), l.name)
               == if IsCandidate(rs[i], kind, l.module_) && rs[i].name == l.name then [rs[i]] else Named(rest, l.name)
  {
    var rest := Candidates(rs[i + 1..], kind, l.module_);
    assert rs[i..][1..] == rs[i + 1..] && ([rs[i]] + rest)[1..] == rest && [] + rest == rest;
  }

  lemma MatchingNext(matching: seq<Resource>, rs: seq<Resource>, i: nat, kind: string, l: Location)
    requires i < |rs|
    ensures l.name == "" ==>
              matching + Matching(rs[i..], kind, l)
              == (if IsCandidate(rs[i], kind, l.module_) then matching + [rs[i]] else matching) + Matching(rs[i + 1..], kind, l)
    ensures l.name != "" ==>
              Matching(rs[i..], kind, l)
              == if IsCandidate(rs[i], kind, l.module_) && rs[i].name == l.name then [rs[i]] else Matching(rs[i + 1..], kind, l)
  {
    CandidatesNext(rs, i, kind, l);
  }

  method GetResources(rs: seq<Resource>, kind: string, l: Location) returns (r: Result<seq<Resource>>)
    ensures r.Ok? <==> Matching(rs, kind, l) != []
    ensures r.Ok? ==> r.value == Matching(rs, kind, l)
  {
    var matching := [];
    ghost var all := Matching(rs, kind, l);
    assert rs[0..] == rs && [] + all == all;
    for i := 0 to |rs|
      invariant all == matching + Matching(rs[i..], kind, l)
      invariant l.name != "" ==> matching == []
    {
      MatchingNext(matching, rs, i, kind, l);
      if !rs[i].managed || rs[i].kind != kind || (l.module_ != "" && l.module_ != rs[i].module_) {
        continue;
      }
      if l.name != "" {
        if rs[i].name == l.name {
          return Ok(matching + [rs[i]]);
        }
        continue;
      }
      matching := matching + [rs[i]];
    }
    assert rs[|rs|..] == [] && matching + [] == matching;
    if matching == [] {
      return Err("resource not found in state file");
    }
    return Ok(matching);
  }

  function ResourceIndexes(keys: seq<IndexKey>, r: Resource): seq<IndexKey> {
    if keys != [] then keys else if r.instances == [] then [NoKey] else r.instances
  }

  /** What some resources add to the coverage of one item. */
  function Covered(cov: Coverage, keys: seq<IndexKey>, rs: seq<Resource>): Coverage
    decreases |rs|
  {
    if rs == [] then cov
    else Covered(if rs[0].instances == [] then cov else cov[KeyOf(rs[0]) := ResourceIndexes(keys, rs[0])], keys, rs[1..])
  }

  /** The coverage of one item; none if the item is in error. */
  function ItemCoverage(item: Item, rs: seq<Resource>, atoi: Atoi): Coverage {
    match ResolveItem(item, atoi)
    case Err(_) => map[]
    case Ok(resolved) =>
      var matching := Matching(rs, resolved.kind, resolved.source);
      match GetIndexKeys(resolved)
      case Err(_) => map[]
      case Ok(keys) => Covered(map[], keys, matching)
  }

  /** Resource `n` is the last with instances and this key. */
  ghost predicate LastWith(rs: seq<Resource>, n: nat, k: ResourceKey) {
    && n < |rs| && rs[n].instances != [] && ResourceKey(rs[n].kind, rs[n].module_, rs[n].name) == k
    && forall j :: n < j < |rs| && rs[j].instances != [] ==> ResourceKey(rs[j].kind, rs[j].module_, rs[j].name) != k
  }

  /** The given keys, or else all keys of the resource, cover it. */
  lemma {:induction false} CoveredIs(cov: Coverage, keys: seq<IndexKey>, rs: seq<Resource>, k: ResourceKey)
    ensures var all := Covered(cov, keys, rs);
            && (forall n: nat :: LastWith(rs, n, k) ==> k in all && all[k] == if keys != [] then keys else rs[n].instances)
            && ((forall n: nat :: !LastWith(rs, n, k)) ==> (k in all <==> k in cov) && (k in all ==> all[k] == cov[k]))
    decreases |rs|
  {
    if rs != [] {
      var first := if rs[0].instances == [] then cov else cov[KeyOf(rs[0]) := ResourceIndexes(keys, rs[0])];
      CoveredIs(first, keys, rs[1..], k);
      forall n: nat | n > 0 ensures LastWith(rs, n, k) <==> LastWith(rs[1..], n - 1, k) {
        if LastWith(rs[1..], n - 1, k) {
          forall j | n < j < |rs| && rs[j].instances != []
            ensures ResourceKey(rs[j].kind, rs[j].module_, rs[j].name) != k
          {
            assert rs[j] == rs[1..][j - 1];
          }
        }
      }
      forall n: nat | LastWith(rs[1..], n, k) ensures LastWith(rs, n + 1, k) {
      }
      if LastWith(rs, 0, k) {
        forall n: nat ensures !LastWith(rs[1..], n, k) {
          assert n < |rs[1..]| ==> rs[1..][n] == rs[n + 1];
        }
      } else if (forall n: nat :: !LastWith(rs[1..], n, k)) && rs[0].instances != [] && KeyOf(rs[0]) == k {
        var j := SomeLater(rs, k);
      }
    }
  }

  /** A resource that is not the last with its key has a last one behind it. */
  lemma {:induction false} SomeLater(rs: seq<Resource>, k: ResourceKey) returns (n: nat)
    requires rs != [] && rs[0].instances != [] && KeyOf(rs[0]) == k && !LastWith(rs, 0, k)
    ensures LastWith(rs[1..], n, k)
  {
    var j :| 0 < j < |rs| && rs[j].instances != [] && ResourceKey(rs[j].kind, rs[j].module_, rs[j].name) == k;
    if LastWith(rs[1..], j - 1, k) {
      n := j - 1;
    } else {
      assert rs[j..][0] == rs[j];
      n := SomeLater(rs[j..], k);
      n := n + j;
      forall i | n < i < |rs[1..]| && rs[1..][i].instances != []
        ensures ResourceKey(rs[1..][i].kind, rs[1..][i].module_, rs[1..][i].name) != k
      {
        assert rs[1..][i] == rs[j..][1..][i - j];
      }
    }
  }

  ghost function Either(a: string, b: string): string {
    if a != "" then a else b
  }

  /** What an item without an index in its names covers: name, module and keys of the item itself come first. Its
      resources are those of its type that its module and name leave; each is covered by the keys of the item, if it
      has any, and else by all its own. */
  lemma ItemCovers(item: Item, rs: seq<Resource>, atoi: Atoi, k: ResourceKey)
    requires !HasIndex(Either(item.name, item.source.name)) && !HasIndex(Either(item.name, item.target.name))
    ensures var from := Location(Either(item.module_, item.source.module_), Either(item.name, item.source.name), NoKey, []);
            var found, cov := Matching(rs, item.kind, from), ItemCoverage(item, rs, atoi);
            var keys := if item.keys != [] then item.keys else item.source.keys;
            var others := if item.keys != [] then item.keys else item.target.keys;
            var given := if keys != [] then keys
                         else if item.source.key != NoKey || item.target.key != NoKey then [item.source.key] else [];
            if keys != [] && |keys| != |others| then cov == map[]
            else
              && (k in cov <==> exists n: nat :: LastWith(found, n, k))
              && forall n: nat :: LastWith(found, n, k) ==> cov[k] == if given != [] then given else found[n].instances
  {
    var from := Location(Either(item.module_, item.source.module_), Either(item.name, item.source.name), NoKey, []);
    var found := Matching(rs, item.kind, from);
    var resolved := ResolveItem(item, atoi);
    assert Matching(rs, item.kind, resolved.value.source) == found;
    var keys := GetIndexKeys(resolved.value);
    if keys.Ok? {
      CoveredIs(map[], keys.value, found, k);
    }
  }

  method ProcessItem(item: Item, rs: seq<Resource>, atoi: Atoi) returns (r: Result<Coverage>)
    ensures ItemCoverage(item, rs, atoi) == if r.Ok? then r.value else map[]
  {
    var resolved := ResolveItem(item, atoi);
    if resolved.Err? {
      return Err(resolved.why);
    }
    var matching := GetResources(rs, resolved.value.kind, resolved.value.source);
    if matching.Err? {
      return Err(matching.why);
    }
    var keys := GetIndexKeys(resolved.value);
    if keys.Err? {
      return Err(keys.why);
    }
    var cov: Coverage := map[];
    for i := 0 to |matching.value|
      invariant Covered(map[], keys.value, matching.value) == Covered(cov, keys.value, matching.value[i..])
    {
      var resource := matching.value[i];
      assert matching.value[i..][1..] == matching.value[i + 1..];
      if resource.instances == [] {
        continue;
      }
      cov := cov[KeyOf(resource) := ResourceIndexes(keys.value, resource)];
    }
    return Ok(cov);
  }

  /** The lists of an item are appended to the lists of the items before it. */
  function Merged(cov: Coverage, more: Coverage): Coverage {
    map k | k in cov.Keys + more.Keys ::
      (if k in cov then cov[k] else []) + (if k in more then more[k] else [])
  }

  lemma MergedNothing(cov: Coverage)
    ensures Merged(cov, map[]) == cov
  {
    assert forall k :: k in cov ==> cov[k] + [] == cov[k];
  }

  function MergeAll(cov: Coverage, more: seq<Coverage>): Coverage {
    if more == [] then cov else Merged(MergeAll(cov, more[..|more| - 1]), more[|more| - 1])
  }

  function Each<A, B>(s: seq<A>, f: A -> B): seq<B> {
    seq(|s|, n requires 0 <= n < |s| => f(s[n]))
  }

  function Coverages(config: seq<Item>, rs: seq<Resource>, atoi: Atoi): seq<Coverage> {
    Each(config, (item: Item) => ItemCoverage(item, rs, atoi))
  }

  function ConfigCoverage(config: seq<Item>, rs: seq<Resource>, atoi: Atoi): Coverage {
    MergeAll(map[], Coverages(config, rs, atoi))
  }

  /* ---------- what is missing ---------- */

  /** A key is among the covered ones: a text as the same text, a number as anything that is printed alike, and no other
      key ever. */
  ghost predicate Present(key: IndexKey, indexes: seq<IndexKey>) {
    match key
    case NoKey => NoKey in indexes
    case Str(t) => Str(t) in indexes
    case Num(t) => Num(t) in indexes || Str(t) in indexes || Other(t) in indexes
    case Other(_) => false
  }

  lemma PresentIs(key: IndexKey, indexes: seq<IndexKey>)
    ensures Present(key, indexes) <==> exists i :: 0 <= i < |indexes| && Compare(key, indexes[i]) == Some(true)
  {
    forall i | 0 <= i < |indexes| && Compare(key, indexes[i]) == Some(true) ensures Present(key, indexes) {
      assert indexes[i] in indexes;
    }
    if Present(key, indexes) {
      var k :| k in indexes && Compare(key, k) == Some(true);
    }
  }

  lemma PresentGrows(key: IndexKey, a: seq<IndexKey>, b: seq<IndexKey>)
    requires a <= b && Present(key, a)
    ensures Present(key, b)
  {
    forall x | x in a ensures x in b {
      var i :| 0 <= i < |a| && a[i] == x;
      assert b[i] == x;
    }
  }

  ghost predicate Reported(r: Resource, cov: Coverage) {
    KeyOf(r) !in cov || exists key :: key in r.instances && key != NoKey && !Present(key, cov[KeyOf(r)])
  }

  ghost function Absent(keys: seq<IndexKey>, indexes: seq<IndexKey>): seq<IndexKey> {
    if keys == [] then []
    else
      Absent(keys[..|keys| - 1], indexes)
      + (if keys[|keys| - 1] != NoKey && !Present(keys[|keys| - 1], indexes) then [keys[|keys| - 1]] else [])
  }

  /** The item that is reported for a resource: all its keys, or those that are not covered. */
  ghost function Report(r: Resource, cov: Coverage): Item {
    Item(r.kind, r.name, r.module_,
         if KeyOf(r) in cov then Absent(r.instances, cov[KeyOf(r)])
         else if r.instances != [] && r.instances[0] != NoKey then r.instances
         else [],
         Location("", "", NoKey, []), Location("", "", NoKey, []))
  }

  ghost function Missing(rs: seq<Resource>, cov: Coverage): seq<Item> {
    if rs == [] then []
    else
      Missing(rs[..|rs| - 1], cov)
      + (if rs[|rs| - 1].managed && Reported(rs[|rs| - 1], cov) then [Report(rs[|rs| - 1], cov)] else [])
  }

  lemma {:induction false} AbsentKeys(keys: seq<IndexKey>, indexes: seq<IndexKey>)
    ensures forall k :: k in Absent(keys, indexes) <==> k in keys && k != NoKey && !Present(k, indexes)
  {
    if keys != [] {
      var n := |keys| - 1;
      AbsentKeys(keys[..n], indexes);
      assert keys == keys[..n] + [keys[n]];
    }
  }

  /** The keys that are reported for a covered resource: a text that is not covered as a text, a number that is covered
      in no printed form, and every other key; it is reported exactly if there is one. An uncovered resource is always
      reported. */
  lemma ReportedKeys(r: Resource, cov: Coverage)
    ensures var k := ResourceKey(r.kind, r.module_, r.name);
            && (k !in cov ==> Reported(r, cov))
            && (k in cov ==> (Reported(r, cov) <==> Report(r, cov).keys != []))
            && (k in cov ==> forall t :: Str(t) in Report(r, cov).keys <==> Str(t) in r.instances && Str(t) !in cov[k])
            && (k in cov ==> forall t :: Num(t) in Report(r, cov).keys <==>
                  Num(t) in r.instances && Num(t) !in cov[k] && Str(t) !in cov[k] && Other(t) !in cov[k])
            && (k in cov ==> forall t :: Other(t) in Report(r, cov).keys <==> Other(t) in r.instances)
            && (k in cov ==> NoKey !in Report(r, cov).keys)
  {
    var k := KeyOf(r);
    if k in cov {
      AbsentKeys(r.instances, cov[k]);
      var keys := Report(r, cov).keys;
      if keys != [] {
        assert keys[0] in keys;
      }
    }
  }

  lemma AbsentMeansReported(r: Resource, cov: Coverage)
    requires KeyOf(r) in cov
    ensures Reported(r, cov) <==> Absent(r.instances, cov[KeyOf(r)]) != []
  {
    var keys := Absent(r.instances, cov[KeyOf(r)]);
    AbsentKeys(r.instances, cov[KeyOf(r)]);
    if keys != [] {
      assert keys[0] in keys;
    }
  }

  /** An uncovered resource is reported; of a covered one, the texts among its keys that are not covered. */
  ghost predicate TextsReported(r: Resource, cov: Coverage, item: Option<Item>) {
    var k := ResourceKey(r.kind, r.module_, r.name);
    && (k !in cov ==> item.Some?)
    && (k in cov && item.Some? ==> forall t :: Str(t) in item.value.keys <==> Str(t) in r.instances && Str(t) !in cov[k])
    && (k in cov && item.None? ==> forall t :: Str(t) in r.instances ==> Str(t) in cov[k])
  }

  lemma ReportsTexts(r: Resource, cov: Coverage)
    ensures TextsReported(r, cov, if Reported(r, cov) then Some(Report(r, cov)) else None)
  {
    ReportedKeys(r, cov);
  }

  method GetMissingResource(r: Resource, cov: Coverage) returns (item: Option<Item>)
    ensures item == if Reported(r, cov) then Some(Report(r, cov)) else None
    ensures TextsReported(r, cov, item)
  {
    ReportsTexts(r, cov);
    var bare := Item(r.kind, r.name, r.module_, [], NOWHERE, NOWHERE);
    if KeyOf(r) !in cov {
      var all := ResourceIndexes([], r);
      return Some(if all[0] != NoKey then bare.(keys := all) else bare);
    }
    var indexes, missing := cov[KeyOf(r)], [];
    for i := 0 to |r.instances|
      invariant missing == Absent(r.instances[..i], indexes)
    {
      var key, found := r.instances[i], false;
      for j := 0 to |indexes|
        invariant !found && forall k :: 0 <= k < j ==> Compare(key, indexes[k]) != Some(true)
      {
        if Compare(key, indexes[j]) == Some(true) {
          found := true;
          break;
        }
      }
      PresentIs(key, indexes);
      assert r.instances[..i + 1][..i] == r.instances[..i];
      if !found && key != NoKey {
        missing := missing + [key];
      }
    }
    assert r.instances[..|r.instances|] == r.instances;
    AbsentMeansReported(r, cov);
    if missing == [] {
      return None;
    }
    return Some(bare.(keys := missing));
  }

  method FindMissingResources(rs: seq<Resource>, cov: Coverage) returns (missing: seq<Item>)
    ensures missing == Missing(rs, cov)
  {
    missing := [];
    for i := 0 to |rs|
      invariant missing == Missing(rs[..i], cov)
    {
      assert rs[..i + 1][..i] == rs[..i];
      if !rs[i].managed {
        continue;
      }
      var item := GetMissingResource(rs[i], cov);
      if item.Some? {
        missing := missing + [item.value];
      }
    }
    assert rs[..|rs|] == rs;
  }

  /** What the generator reports for a configuration. */
  ghost function Generated(config: seq<Item>, rs: seq<Resource>, atoi: Atoi): seq<Item> {
    Missing(rs, ConfigCoverage(config, rs, atoi))
  }

  method Generate(config: seq<Item>, rs: seq<Resource>, atoi: Atoi) returns (missing: seq<Item>)
    ensures missing == Generated(config, rs, atoi)
  {
    var cov: Coverage := map[];
    ghost var all := Coverages(config, rs, atoi);
    for i := 0 to |config|
      invariant cov == MergeAll(map[], all[..i])
    {
      assert all[..i + 1][..i] == all[..i];
      var more := ProcessItem(config[i], rs, atoi);
      if more.Err? {
        MergedNothing(cov);
        continue;
      }
      cov := Merged(cov, more.value);
    }
    assert all[..|config|] == all;
    missing := FindMissingResources(rs, cov);
  }

  /* ---------- reporting again ---------- */

  /** No two managed resources share type, module and name, and their names are names. */
  ghost predicate IsState(rs: seq<Resource>) {
    && (forall i, j :: 0 <= i < j < |rs| && rs[i].managed && rs[j].managed ==> KeyOf(rs[i]) != KeyOf(rs[j]))
    && (forall i :: 0 <= i < |rs| && rs[i].managed ==> rs[i].name != "" && rs[i].name[0] != '[')
  }

  /** A search for the type, module and name of the resource finds the resource itself. */
  ghost predicate FirstMatch(rs: seq<Resource>, i: nat)
    requires i < |rs|
  {
    forall j :: 0 <= j < i ==> !(IsCandidate(rs[j], rs[i].kind, rs[i].module_) && rs[j].name == rs[i].name)
  }

  /** The item reported for the resource names the resource. */
  ghost predicate Addressable(rs: seq<Resource>, i: nat)
    requires i < |rs|
  {
    rs[i].instances != [] && !HasIndex(rs[i].name) && FirstMatch(rs, i)
  }

  ghost predicate Comparable(r: Resource) {
    forall key :: key in r.instances ==> !key.Other?
  }

  lemma {:induction false} MergeJoined(cov: Coverage, a: seq<Coverage>, b: seq<Coverage>)
    ensures MergeAll(cov, a + b) == MergeAll(MergeAll(cov, a), b)
  {
    if b == [] {
      assert a + b == a;
    } else {
      assert (a + b)[..|a + b| - 1] == a + b[..|b| - 1];
      MergeJoined(cov, a, b[..|b| - 1]);
    }
  }

  lemma EachJoined<A, B>(a: seq<A>, b: seq<A>, f: A -> B)
    ensures Each(a + b, f) == Each(a, f) + Each(b, f)
  {
  }

  /** The items of a configuration, then some more. */
  lemma ConfigJoined(config: seq<Item>, more: seq<Item>, rs: seq<Resource>, atoi: Atoi)
    ensures ConfigCoverage(config + more, rs, atoi) == MergeAll(ConfigCoverage(config, rs, atoi), Coverages(more, rs, atoi))
  {
    EachJoined(config, more, (item: Item) => ItemCoverage(item, rs, atoi));
    MergeJoined(map[], Coverages(config, rs, atoi), Coverages(more, rs, atoi));
  }

  /** Merging never takes coverage away. */
  lemma {:induction false} CoverageGrows(cov: Coverage, more: seq<Coverage>, k: ResourceKey)
    requires k in cov
    ensures k in MergeAll(cov, more) && cov[k] <= MergeAll(cov, more)[k]
  {
    if more != [] {
      CoverageGrows(cov, more[..|more| - 1], k);
    }
  }

  lemma {:induction false} CoverageStays(cov: Coverage, more: seq<Coverage>, k: ResourceKey)
    requires forall n :: 0 <= n < |more| ==> k !in more[n]
    ensures k in MergeAll(cov, more) <==> k in cov
    ensures k in cov ==> MergeAll(cov, more)[k] == cov[k]
  {
    if more != [] {
      CoverageStays(cov, more[..|more| - 1], k);
    }
  }

  lemma {:induction false} CoverageHas(cov: Coverage, more: seq<Coverage>, k: ResourceKey, n: nat, x: IndexKey)
    requires n < |more| && k in more[n] && x in more[n][k]
    ensures k in MergeAll(cov, more) && x in MergeAll(cov, more)[k]
  {
    if n < |more| - 1 {
      CoverageHas(cov, more[..|more| - 1], k, n, x);
    }
  }

  lemma {:induction false} MissingHas(rs: seq<Resource>, cov: Coverage, i: nat) returns (n: nat)
    requires i < |rs| && rs[i].managed && Reported(rs[i], cov)
    ensures n < |Missing(rs, cov)| && Missing(rs, cov)[n] == Report(rs[i], cov)
  {
    if i == |rs| - 1 {
      n := |Missing(rs[..|rs| - 1], cov)|;
    } else {
      n := MissingHas(rs[..|rs| - 1], cov, i);
    }
  }

  lemma {:induction false} MissingComesFrom(rs: seq<Resource>, cov: Coverage, n: nat) returns (i: nat)
    requires n < |Missing(rs, cov)|
    ensures i < |rs| && rs[i].managed && Reported(rs[i], cov) && Missing(rs, cov)[n] == Report(rs[i], cov)
  {
    i := |rs| - 1;
    if n < |Missing(rs[..|rs| - 1], cov)| {
      i := MissingComesFrom(rs[..|rs| - 1], cov, n);
    }
  }

  /** Where a search by name ends. */
  lemma {:induction false} FirstNamed(rs: seq<Resource>, kind: string, module_: string, name: string)
    ensures var found := Named(Candidates(rs, kind, module_), name);
            || (found == [] && forall j :: 0 <= j < |rs| ==> !(IsCandidate(rs[j], kind, module_) && rs[j].name == name))
            || (|found| == 1 && exists f :: 0 <= f < |rs| && found == [rs[f]] && Finds(rs, kind, module_, name, f))
  {
    if rs != [] {
      var rest := Candidates(rs[1..], kind, module_);
      FirstNamed(rs[1..], kind, module_, name);
      assert ([rs[0]] + rest)[1..] == rest && [] + rest == rest;
      if IsCandidate(rs[0], kind, module_) && rs[0].name == name {
        assert Finds(rs, kind, module_, name, 0);
      } else if Named(rest, name) != [] {
        var f :| 0 <= f < |rs[1..]| && Named(rest, name) == [rs[1..][f]] && Finds(rs[1..], kind, module_, name, f);
        forall j | 0 <= j < f + 1 ensures !(IsCandidate(rs[j], kind, module_) && rs[j].name == name) {
          assert j > 0 ==> rs[j] == rs[1..][j - 1];
        }
        assert Finds(rs, kind, module_, name, f + 1);
      } else {
        forall j | 0 <= j < |rs| ensures !(IsCandidate(rs[j], kind, module_) && rs[j].name == name) {
          assert j > 0 ==> rs[j] == rs[1..][j - 1];
        }
      }
    }
  }

  ghost predicate Finds(rs: seq<Resource>, kind: string, module_: string, name: string, f: nat) {
    && f < |rs| && IsCandidate(rs[f], kind, module_) && rs[f].name == name
    && forall j :: 0 <= j < f ==> !(IsCandidate(rs[j], kind, module_) && rs[j].name == name)
  }

  /** The name that a reported item searches for. */
  ghost function SearchName(name: string): string {
    match IndexFrom(name, 0)
    case Some(i) => name[..i]
    case None => name
  }

  lemma SearchNameIs(name: string)
    requires name != "" && name[0] != '['
    ensures SearchName(name) != "" && !HasIndex(SearchName(name))
    ensures HasIndex(name) <==> SearchName(name) != name
  {
    match IndexFrom(name, 0) {
      case Some(i) => FirstBracket(name, i, 0);
      case None =>
    }
  }

  lemma BlanksNowhere(name: string, a: nat, b: nat)
    requires a < b && b + 2 < |name| && name[b - 1] == ']' && name[b] == '['
    requires NoSpace(name[a..b - 1]) && NoSpace(name[b + 1..|name| - 1])
    ensures NoSpace(name[a..|name| - 1])
  {
    var s := name[a..|name| - 1];
    forall n | 0 <= n < |s| ensures s[n] !in {' ', '\t', '\n', '\r', '\U{0C}'} {
      if a + n < b - 1 {
        assert s[n] == name[a..b - 1][n];
      } else if b < a + n {
        assert s[n] == name[b + 1..|name| - 1][a + n - b - 1];
      }
    }
  }

  lemma CutName(name: string, i: nat, from: nat)
    requires from < i <= |name|
    ensures name[..i][from] == name[from] && name[..i][i - 1] == name[i - 1]
    ensures from + 2 < i ==> name[..i][from + 1..i - 1] == name[from + 1..i - 1]
  {
  }

  /** The part of a name before its index has no index. */
  lemma {:induction false} FirstBracket(name: string, i: nat, from: nat)
    requires from <= i && i + 2 < |name| && IndexFrom(name, from) == Some(i)
    ensures name[i] == '[' && NoSpace(name[i + 1..|name| - 1]) && name[|name| - 1] == ']'
    ensures IndexFrom(name[..i], from) == None
    decreases i - from
  {
    if from < i {
      assert name[from..][0] == name[from];
      FirstBracket(name, i, from + 1);
      CutName(name, i, from);
      if from + 2 < i && name[from] == '[' && name[i - 1] == ']' && NoSpace(name[from + 1..i - 1]) {
        BlanksNowhere(name, from + 1, i);
      }
    }
  }

  /** What a reported item searches for, and with which keys. */
  lemma ReportSearches(rs: seq<Resource>, r: Resource, cov: Coverage, atoi: Atoi)
    requires r.name != "" && r.name[0] != '['
    ensures var item := ResolveItem(Report(r, cov), atoi);
            && (!HasIndex(r.name) ==> item.Ok?)
            && (item.Ok? ==>
                  && item.value.kind == r.kind
                  && item.value.source.module_ == r.module_ && item.value.source.name == SearchName(r.name)
                  && GetIndexKeys(item.value).Ok?
                  && (!HasIndex(r.name) ==> GetIndexKeys(item.value) == Ok(Report(r, cov).keys)))
  {
  }

  /** A reported item covers at most the one resource that its search finds. */
  lemma ReportCovers(rs: seq<Resource>, r: Resource, cov: Coverage, atoi: Atoi, f: nat)
    requires r.name != "" && r.name[0] != '[' && Finds(rs, r.kind, r.module_, SearchName(r.name), f)
    ensures var more := ItemCoverage(Report(r, cov), rs, atoi);
            && (more == map[] || (rs[f].instances != [] && more.Keys == {KeyOf(rs[f])}))
            && (!HasIndex(r.name) && rs[f].instances != [] ==>
                  more == map[KeyOf(rs[f]) := ResourceIndexes(Report(r, cov).keys, rs[f])])
  {
    SearchNameIs(r.name);
    ReportSearches(rs, r, cov, atoi);
    var found := Named(Candidates(rs, r.kind, r.module_), SearchName(r.name));
    FirstNamed(rs, r.kind, r.module_, SearchName(r.name));
    assert found == [rs[f]] by {
      assert IsCandidate(rs[f], r.kind, r.module_) && rs[f].name == SearchName(r.name);
      var g :| 0 <= g < |rs| && found == [rs[g]] && Finds(rs, r.kind, r.module_, SearchName(r.name), g);
      assert g == f;
    }
    var item := ResolveItem(Report(r, cov), atoi);
    if item.Ok? {
      assert Matching(rs, item.value.kind, item.value.source) == [rs[f]];
      CoveredByOne(GetIndexKeys(item.value).value, rs[f]);
    }
  }

  lemma CoveredByOne(keys: seq<IndexKey>, r: Resource)
    ensures Covered(map[], keys, [r]) == if r.instances == [] then map[] else map[KeyOf(r) := ResourceIndexes(keys, r)]
  {
    assert [r][1..] == [];
  }

  lemma ReportCoversNothing(rs: seq<Resource>, r: Resource, cov: Coverage, atoi: Atoi)
    requires r.name != "" && r.name[0] != '[' && forall f: nat :: !Finds(rs, r.kind, r.module_, SearchName(r.name), f)
    ensures ItemCoverage(Report(r, cov), rs, atoi) == map[]
  {
    SearchNameIs(r.name);
    ReportSearches(rs, r, cov, atoi);
    FirstNamed(rs, r.kind, r.module_, SearchName(r.name));
  }

  /** No reported item covers a resource that its own item does not find. */
  lemma NotCovered(rs: seq<Resource>, r: nat, cov: Coverage, atoi: Atoi, i: nat)
    requires IsState(rs) && r < |rs| && i < |rs| && rs[r].managed && rs[i].managed && !Addressable(rs, i)
    ensures KeyOf(rs[i]) !in ItemCoverage(Report(rs[r], cov), rs, atoi)
  {
    if f: nat :| Finds(rs, rs[r].kind, rs[r].module_, SearchName(rs[r].name), f) {
      ReportCovers(rs, rs[r], cov, atoi, f);
      SearchNameIs(rs[r].name);
      if KeyOf(rs[f]) == KeyOf(rs[i]) && rs[f].instances != [] {
        SameKey(rs, f, i);
      }
    } else {
      ReportCoversNothing(rs, rs[r], cov, atoi);
    }
  }

  lemma SameKey(rs: seq<Resource>, i: nat, j: nat)
    requires IsState(rs) && i < |rs| && j < |rs| && rs[i].managed && rs[j].managed && KeyOf(rs[i]) == KeyOf(rs[j])
    ensures i == j
  {
  }

  lemma StaysReported(config: seq<Item>, rs: seq<Resource>, atoi: Atoi, i: nat)
    requires IsState(rs) && i < |rs| && rs[i].managed && !Addressable(rs, i)
    ensures var cov := ConfigCoverage(config, rs, atoi);
            Reported(rs[i], MergeAll(cov, Coverages(Missing(rs, cov), rs, atoi))) <==> Reported(rs[i], cov)
  {
    var cov := ConfigCoverage(config, rs, atoi);
    var missing := Missing(rs, cov);
    forall n | 0 <= n < |missing| ensures KeyOf(rs[i]) !in ItemCoverage(missing[n], rs, atoi) {
      var r := MissingComesFrom(rs, cov, n);
      NotCovered(rs, r, cov, atoi, i);
    }
    CoverageStays(cov, Coverages(missing, rs, atoi), KeyOf(rs[i]));
  }

  lemma Comparing(key: IndexKey)
    requires !key.Other?
    ensures Compare(key, key) == Some(true)
  {
  }

  /** An own item covers every key that was not covered before. */
  lemma OwnItemCovers(rs: seq<Resource>, cov: Coverage, atoi: Atoi, i: nat, key: IndexKey)
    requires i < |rs| && rs[i].managed && rs[i].name != "" && rs[i].name[0] != '[' && Addressable(rs, i)
    requires Reported(rs[i], cov) && key in rs[i].instances && key != NoKey
    requires KeyOf(rs[i]) in cov ==> !Present(key, cov[KeyOf(rs[i])])
    ensures var more := ItemCoverage(Report(rs[i], cov), rs, atoi);
            KeyOf(rs[i]) in more && key in more[KeyOf(rs[i])]
  {
    assert Finds(rs, rs[i].kind, rs[i].module_, SearchName(rs[i].name), i) by { SearchNameIs(rs[i].name); }
    ReportCovers(rs, rs[i], cov, atoi, i);
    if KeyOf(rs[i]) in cov {
      AbsentKeys(rs[i].instances, cov[KeyOf(rs[i])]);
    }
  }

  lemma OnceCovered(config: seq<Item>, rs: seq<Resource>, atoi: Atoi, i: nat)
    requires IsState(rs) && i < |rs| && rs[i].managed && Addressable(rs, i) && Comparable(rs[i])
    ensures var cov := ConfigCoverage(config, rs, atoi);
            !Reported(rs[i], MergeAll(cov, Coverages(Missing(rs, cov), rs, atoi)))
  {
    var cov, k := ConfigCoverage(config, rs, atoi), KeyOf(rs[i]);
    var missing := Missing(rs, cov);
    var after := MergeAll(cov, Coverages(missing, rs, atoi));
    if k in cov {
      CoverageGrows(cov, Coverages(missing, rs, atoi), k);
    }
    forall key | key in rs[i].instances && key != NoKey ensures k in after && Present(key, after[k]) {
      Comparing(key);
      if k in cov && Present(key, cov[k]) {
        PresentGrows(key, cov[k], after[k]);
      } else {
        var n := MissingHas(rs, cov, i);
        OwnItemCovers(rs, cov, atoi, i, key);
        CoverageHas(cov, Coverages(missing, rs, atoi), k, n, key);
      }
    }
    if k !in cov {
      var n := MissingHas(rs, cov, i);
      assert Finds(rs, rs[i].kind, rs[i].module_, SearchName(rs[i].name), i) by { SearchNameIs(rs[i].name); }
      ReportCovers(rs, rs[i], cov, atoi, i);
      var x := ItemCoverage(missing[n], rs, atoi)[k][0];
      CoverageHas(cov, Coverages(missing, rs, atoi), k, n, x);
    }
  }

  lemma AlwaysReported(r: Resource, cov: Coverage)
    requires !Comparable(r)
    ensures Reported(r, cov)
  {
    var key :| key in r.instances && key.Other?;
    assert KeyOf(r) in cov ==> !Present(key, cov[KeyOf(r)]);
  }

  /** Exactly when a resource is reported again once all reported items are part of the configuration. */
  lemma ReportedAgain(config: seq<Item>, rs: seq<Resource>, atoi: Atoi, i: nat)
    requires IsState(rs) && i < |rs| && rs[i].managed
    ensures Reported(rs[i], ConfigCoverage(config + Generated(config, rs, atoi), rs, atoi)) <==>
            Reported(rs[i], ConfigCoverage(config, rs, atoi)) && !(Addressable(rs, i) && Comparable(rs[i]))
  {
    var cov := ConfigCoverage(config, rs, atoi);
    var missing := Missing(rs, cov);
    ConfigJoined(config, missing, rs, atoi);
    if !Addressable(rs, i) {
      StaysReported(config, rs, atoi, i);
    } else if Comparable(rs[i]) {
      OnceCovered(config, rs, atoi, i);
    } else {
      AlwaysReported(rs[i], cov);
      AlwaysReported(rs[i], MergeAll(cov, Coverages(missing, rs, atoi)));
    }
  }

  /** Nothing is reported a second time exactly if every reported item names its resource and its keys compare. */
  lemma Closure(config: seq<Item>, rs: seq<Resource>, atoi: Atoi)
    requires IsState(rs)
    ensures Generated(config + Generated(config, rs, atoi), rs, atoi) == [] <==>
            forall i :: 0 <= i < |rs| && rs[i].managed && Reported(rs[i], ConfigCoverage(config, rs, atoi)) ==>
              Addressable(rs, i) && Comparable(rs[i])
  {
    var cov := ConfigCoverage(config, rs, atoi);
    var after := ConfigCoverage(config + Generated(config, rs, atoi), rs, atoi);
    forall i | 0 <= i < |rs| && rs[i].managed
      ensures Reported(rs[i], after) <==> Reported(rs[i], cov) && !(Addressable(rs, i) && Comparable(rs[i]))
    {
      ReportedAgain(config, rs, atoi, i);
    }
    if Missing(rs, after) != [] {
      var i := MissingComesFrom(rs, after, 0);
    }
    forall i | 0 <= i < |rs| && rs[i].managed && Reported(rs[i], after) ensures Missing(rs, after) != [] {
      var n := MissingHas(rs, after, i);
    }
  }

  /** A state whose managed resources differ in type and name, have names without brackets and have instances with
      text or number keys is covered once the reported items are added. */
  lemma PlainStateCloses(config: seq<Item>, rs: seq<Resource>, atoi: Atoi)
    requires forall i, j :: 0 <= i < j < |rs| && rs[i].managed && rs[j].managed ==>
               rs[i].kind != rs[j].kind || rs[i].name != rs[j].name
    requires forall i :: 0 <= i < |rs| && rs[i].managed ==>
               rs[i].name != "" && '[' !in rs[i].name && rs[i].instances != [] && Comparable(rs[i])
    ensures Generated(config + Generated(config, rs, atoi), rs, atoi) == []
  {
    assert IsState(rs) by {
      forall i | 0 <= i < |rs| && rs[i].managed ensures rs[i].name[0] != '[' {
        assert rs[i].name[0] in rs[i].name;
      }
    }
    forall i | 0 <= i < |rs| && rs[i].managed ensures Addressable(rs, i) {
      SearchNameIs(rs[i].name);
      if HasIndex(rs[i].name) {
        var at := IndexFrom(rs[i].name, 0).value;
        FirstBracket(rs[i].name, at, 0);
      }
    }
    Closure(config, rs, atoi);
  }

  /** The configuration after some rounds of adding everything that is reported. */
  ghost function AfterRounds(config: seq<Item>, rs: seq<Resource>, atoi: Atoi, n: nat): seq<Item>
    decreases n
  {
    if n == 0 then config else AfterRounds(config + Generated(config, rs, atoi), rs, atoi, n - 1)
  }

  lemma LaterRounds(config: seq<Item>, rs: seq<Resource>, atoi: Atoi, n: nat)
    requires n > 0
    ensures AfterRounds(config, rs, atoi, n) == AfterRounds(config + Generated(config, rs, atoi), rs, atoi, n - 1)
    ensures n == 1 ==> AfterRounds(config, rs, atoi, n) == config + Generated(config, rs, atoi)
  {
  }

  /** However many rounds follow, they add nothing to the first: a resource is still reported exactly if it was and
      its item does not name it or its keys do not compare. */
  lemma {:induction false} OneRoundDecides(config: seq<Item>, rs: seq<Resource>, atoi: Atoi, i: nat, n: nat)
    requires IsState(rs) && i < |rs| && rs[i].managed && n > 0
    ensures Reported(rs[i], ConfigCoverage(AfterRounds(config, rs, atoi, n), rs, atoi)) <==>
            Reported(rs[i], ConfigCoverage(config, rs, atoi)) && !(Addressable(rs, i) && Comparable(rs[i]))
    decreases n
  {
    ReportedAgain(config, rs, atoi, i);
    LaterRounds(config, rs, atoi, n);
    if n > 1 {
      OneRoundDecides(config + Generated(config, rs, atoi), rs, atoi, i, n - 1);
    }
  }

  /** A root resource behind a module resource of the same type and name, once reported, is reported however often
      its item is added: the item names the module's resource. */
  lemma RootTwinIsNeverCovered(config: seq<Item>, rs: seq<Resource>, atoi: Atoi, j: nat, i: nat, n: nat)
    requires IsState(rs) && j < i < |rs| && rs[j].managed && rs[i].managed && rs[i].module_ == ""
    requires rs[j].kind == rs[i].kind && rs[j].name == rs[i].name
    requires Reported(rs[i], ConfigCoverage(config, rs, atoi))
    ensures Reported(rs[i], ConfigCoverage(AfterRounds(config, rs, atoi, n), rs, atoi))
  {
    assert IsCandidate(rs[j], rs[i].kind, rs[i].module_) && rs[j].name == rs[i].name;
    if n > 0 {
      OneRoundDecides(config, rs, atoi, i, n);
    }
  }

  /** Without a configuration such a twin is reported. */
  lemma RootTwinIsReported(atoi: Atoi, n: nat)
    ensures var rs := [Resource("t", "n", "module.m", true, [NoKey]), Resource("t", "n", "", true, [NoKey])];
            Reported(rs[1], ConfigCoverage(AfterRounds([], rs, atoi, n), rs, atoi))
  {
    var rs := [Resource("t", "n", "module.m", true, [NoKey]), Resource("t", "n", "", true, [NoKey])];
    RootTwinIsNeverCovered([], rs, atoi, 0, 1, n);
  }
}
