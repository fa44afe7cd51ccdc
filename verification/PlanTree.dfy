/** Finding the planned resource that a migrated item becomes. */
module PlanTree {
  import opened Strings
  import opened Versions

  datatype Resource = Resource(address: string, managed: bool, kind: string, name: string, index: string)

  datatype Module = Module(resources: seq<Resource>, children: seq<Module>)

  /** Where an item goes: its type, and the module and name if the item gives them. */
  datatype Wanted = Wanted(kind: string, module_: string, name: string)

  datatype Destination = Destination(name: string, module_: string, index: Option<string>)

  predicate Matches(w: Wanted, r: Resource) {
    && r.managed && r.kind == w.kind
    && (w.module_ == "" || w.module_ <= r.address)
    && (w.name == "" || r.name == w.name)
  }

  /* ---------- the reference: one flat list ---------- */

  /** The resources of the tree, parents before children. */
  function Preorder(m: Module): seq<Resource>
    decreases m, |m.children| + 1
  {
    m.resources + PreorderFrom(m, 0)
  }

  function PreorderFrom(m: Module, i: nat): seq<Resource>
    requires i <= |m.children|
    decreases m, |m.children| - i
  {
    if i == |m.children| then [] else Preorder(m.children[i]) + PreorderFrom(m, i + 1)
  }

  function Filter(w: Wanted, rs: seq<Resource>): seq<Resource> {
    if rs == [] then []
    else Filter(w, rs[..|rs| - 1]) + (if Matches(w, rs[|rs| - 1]) then [rs[|rs| - 1]] else [])
  }

  function Names(rs: seq<Resource>): seq<string> {
    seq(|rs|, i requires 0 <= i < |rs| => rs[i].name)
  }

  function First(rs: seq<Resource>): Option<Resource> {
    if rs == [] then None else Some(rs[0])
  }

  lemma {:induction false} FilterJoined(w: Wanted, a: seq<Resource>, b: seq<Resource>)
    ensures Filter(w, a + b) == Filter(w, a) + Filter(w, b)
  {
    if b == [] {
      assert a + b == a;
    } else {
      assert (a + b)[..|a + b| - 1] == a + b[..|b| - 1];
      FilterJoined(w, a, b[..|b| - 1]);
    }
  }

  lemma {:induction false} FilterIs(w: Wanted, rs: seq<Resource>)
    ensures forall r :: r in Filter(w, rs) <==> r in rs && Matches(w, r)
    ensures |Filter(w, rs)| <= |rs|
  {
    if rs != [] {
      var n := |rs| - 1;
      FilterIs(w, rs[..n]);
      assert rs == rs[..n] + [rs[n]];
    }
  }

  /* ---------- the search ---------- */

  /** What the search of a subtree knows of the matches in it: the first, and without a name to search for the
      names of all. */
  ghost predicate Sums(w: Wanted, matches: seq<Resource>, found: Option<Resource>, names: seq<string>) {
    && found == First(matches)
    && (w.name == "" ==> names == Names(matches))
    && (w.name != "" ==> names == [])
  }

  /** The resources of one module: the first match ends the search if a name is given. */
  method ScanResources(w: Wanted, rs: seq<Resource>) returns (found: Option<Resource>, names: seq<string>)
    ensures Sums(w, Filter(w, rs), found, names)
  {
    found, names := None, [];
    for i := 0 to |rs|
      invariant Sums(w, Filter(w, rs[..i]), found, names)
      invariant w.name != "" ==> found == None
    {
      var r := rs[i];
      assert rs[..i + 1][..i] == rs[..i];
      if !r.managed {
        continue;
      }
      if r.kind != w.kind {
        continue;
      }
      if w.module_ != "" && !(w.module_ <= r.address) {
        continue;
      }
      if w.name != "" {
        if r.name == w.name {
          assert rs == rs[..i + 1] + rs[i + 1..];
          FilterJoined(w, rs[..i + 1], rs[i + 1..]);
          return Some(r), [];
        }
        continue;
      }
      if found == None {
        found := Some(r);
      }
      names := names + [r.name];
    }
    assert rs[..|rs|] == rs;
  }

  lemma SumsJoined(w: Wanted, a: seq<Resource>, b: seq<Resource>, found: Option<Resource>, names: seq<string>,
                   child: Option<Resource>, childNames: seq<string>)
    requires Sums(w, a, found, names) && Sums(w, b, child, childNames)
    ensures child == None ==> a + b == a
    ensures Sums(w, a + b, if found == None then child else found, names + childNames)
  {
    assert Names(a + b) == Names(a) + Names(b);
  }

  lemma NextChild(w: Wanted, m: Module, i: nat, seen: seq<Resource>)
    requires i < |m.children|
    ensures seen + Filter(w, PreorderFrom(m, i))
            == seen + Filter(w, Preorder(m.children[i])) + Filter(w, PreorderFrom(m, i + 1))
  {
    FilterJoined(w, Preorder(m.children[i]), PreorderFrom(m, i + 1));
  }

  /** The first match of the tree in preorder, and without a name the names of all matches. */
  method GetPlannedResource(w: Wanted, m: Module) returns (found: Option<Resource>, names: seq<string>)
    ensures Sums(w, Filter(w, Preorder(m)), found, names)
    decreases m
  {
    found, names := ScanResources(w, m.resources);
    ghost var seen := Filter(w, m.resources);
    FilterJoined(w, m.resources, PreorderFrom(m, 0));
    if w.name != "" && found != None {
      return;
    }
    for i := 0 to |m.children|
      invariant Filter(w, Preorder(m)) == seen + Filter(w, PreorderFrom(m, i))
      invariant Sums(w, seen, found, names)
    {
      var child, childNames := GetPlannedResource(w, m.children[i]);
      ghost var here := Filter(w, Preorder(m.children[i]));
      NextChild(w, m, i, seen);
      SumsJoined(w, seen, here, found, names, child, childNames);
      seen := seen + here;
      if child == None {
        continue;
      }
      names := names + childNames;
      if found == None {
        found := child;
      }
    }
  }

  /** The module in front of the first occurrence of the type in an address; `given` if there is none. */
  function ModulePart(address: string, kind: string, given: string): string {
    FoundAt(address, kind);
    match Find(address, kind)
    case Some(at) => if at > 0 then address[..at - 1] else given
    case None => given
  }

  /** Exactly when the module of an address is found: the type must not occur in the module's own path. */
  lemma ModuleIsFound(module_: string, kind: string, rest: string, given: string)
    requires module_ != "" && kind != ""
    ensures var address := module_ + "." + kind + rest;
            ModulePart(address, kind, given) == module_ <==>
            (forall i: nat :: i <= |module_| ==> !At(address, kind, i)) || (kind <= address && given == module_)
  {
    var address := module_ + "." + kind + rest;
    FoundAt(address, kind);
    NotEarlier(address, kind);
    assert At(address, kind, |module_| + 1);
    var i := FirstAt(address, kind, |module_| + 1);
    assert address[..|module_|] == module_;
    if i == 0 {
      assert address[..|kind|] == address[0..|kind|] == kind;
    }
  }

  /** A resource `vpc.a` of the module `vpc_x`: the module's own name holds the type, and is cut off. */
  lemma ModuleIsCutShort(given: string)
    ensures ModulePart("module.vpc_x" + "." + "vpc" + ".a", "vpc", given) == "module"
  {
    var address := "module.vpc_x" + "." + "vpc" + ".a";
    assert address[7..10] == "vpc" && At(address, "vpc", 7);
    assert forall i: nat :: i < 7 ==> address[i] != 'v';
    forall i: nat | i < 7 ensures !At(address, "vpc", i) {
      assert address[i..i + 3][0] == address[i];
    }
    FindsFirst(address, "vpc", 7);
    assert address[..6] == "module";
  }

  /** The destination of an item: as given, or the one planned resource that fits. `rsName` names the resource when
      the item matches several. */
  method GetDestination(w: Wanted, root: Module, rsName: string) returns (r: Result<Destination>)
    ensures var wanted := w.(name := if w.name == "" then rsName else w.name);
            var matches := Filter(wanted, Preorder(root));
            if wanted.name != "" && wanted.module_ != "" then r == Ok(Destination(wanted.name, wanted.module_, None))
            else
              && (r.Ok? <==> if wanted.name == "" then |matches| == 1 else |matches| > 0)
              && (r.Ok? ==> r.value == Destination(matches[0].name, ModulePart(matches[0].address, w.kind, w.module_),
                                                   Some(matches[0].index)))
  {
    var wanted := w.(name := if w.name == "" then rsName else w.name);
    if wanted.name != "" && wanted.module_ != "" {
      return Ok(Destination(wanted.name, wanted.module_, None));
    }
    var found, names := GetPlannedResource(wanted, root);
    if found == None {
      return Err("resource not found in plan file");
    }
    if |names| > 1 {
      return Err("multiple plan resources found");
    }
    var module_ := ModulePart(found.value.address, wanted.kind, wanted.module_);
    return Ok(Destination(found.value.name, module_, Some(found.value.index)));
  }
}
