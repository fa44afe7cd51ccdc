/** The string operations that several components share. */
module Strings {
  import opened Versions

  /** `t` stands in `s` at position `i`. */
  predicate At(s: string, t: string, i: nat) {
    i + |t| <= |s| && s[i..i + |t|] == t
  }

  function Find(s: string, t: string): Option<nat> {
    if t <= s then Some(0)
    else if s == "" then None
    else match Find(s[1..], t)
      case Some(i) => Some(i + 1)
      case None => None
  }

  lemma AtNext(s: string, t: string, i: nat)
    requires s != ""
    ensures At(s[1..], t, i) <==> At(s, t, i + 1)
  {
    if i + |t| <= |s| - 1 {
      assert s[1..][i..i + |t|] == s[i + 1..i + 1 + |t|];
    }
  }

  lemma AtStart(s: string, t: string)
    ensures At(s, t, 0) <==> t <= s
  {
    if |t| <= |s| {
      assert s[0..|t|] == s[..|t|];
    }
  }

  lemma {:induction false} FindsFirst(s: string, t: string, k: nat)
    requires At(s, t, k) && forall i: nat :: i < k ==> !At(s, t, i)
    ensures Find(s, t) == Some(k)
  {
    AtStart(s, t);
    if k > 0 {
      assert !At(s, t, 0);
      forall i: nat | i < k - 1 ensures !At(s[1..], t, i) {
        AtNext(s, t, i);
      }
      AtNext(s, t, k - 1);
      FindsFirst(s[1..], t, k - 1);
    }
  }

  lemma {:induction false} FoundAt(s: string, t: string)
    ensures Find(s, t).Some? ==> At(s, t, Find(s, t).value)
  {
    AtStart(s, t);
    if !(t <= s) && s != "" {
      FoundAt(s[1..], t);
      if Find(s[1..], t).Some? {
        AtNext(s, t, Find(s[1..], t).value);
      }
    }
  }

  lemma {:induction false} NotEarlier(s: string, t: string)
    ensures Find(s, t).Some? ==> forall i: nat :: i < Find(s, t).value ==> !At(s, t, i)
  {
    AtStart(s, t);
    if !(t <= s) && s != "" && Find(s[1..], t).Some? {
      NotEarlier(s[1..], t);
      forall i: nat | i < Find(s, t).value ensures !At(s, t, i) {
        if i > 0 {
          AtNext(s, t, i - 1);
        }
      }
    }
  }

  lemma {:induction false} FirstAt(s: string, t: string, k: nat) returns (i: nat)
    requires At(s, t, k) && t != ""
    ensures i <= k && At(s, t, i) && Find(s, t) == Some(i)
  {
    AtStart(s, t);
    if t <= s {
      i := 0;
    } else {
      AtNext(s, t, k - 1);
      i := FirstAt(s[1..], t, k - 1);
      AtNext(s, t, i);
      i := i + 1;
    }
  }

  function TrimLeft(s: string, c: char): string {
    if s != "" && s[0] == c then TrimLeft(s[1..], c) else s
  }

  function TrimRight(s: string, c: char): string {
    if s != "" && s[|s| - 1] == c then TrimRight(s[..|s| - 1], c) else s
  }

  function Trim(s: string, c: char): string {
    TrimRight(TrimLeft(s, c), c)
  }

  function Split(s: string, c: char): (parts: seq<string>)
    ensures |parts| > 0
  {
    if s == "" then [""]
    else
      var rest := Split(s[1..], c);
      if s[0] == c then [""] + rest else [[s[0]] + rest[0]] + rest[1..]
  }

  function Join(parts: seq<string>, c: char): string {
    if parts == [] then "" else if |parts| == 1 then parts[0] else parts[0] + [c] + Join(parts[1..], c)
  }

  /** The parts put together again are the text, and no part contains the separator. */
  lemma {:induction false} SplitJoins(s: string, c: char)
    ensures Join(Split(s, c), c) == s && forall p :: p in Split(s, c) ==> c !in p
  {
    if s != "" {
      var rest := Split(s[1..], c);
      SplitJoins(s[1..], c);
      assert s == [s[0]] + s[1..];
      if s[0] == c {
        assert ([""] + rest)[1..] == rest;
      } else {
        assert ([[s[0]] + rest[0]] + rest[1..])[1..] == rest[1..];
      }
    }
  }

  function Lower(s: string): string {
    if s == "" then ""
    else [if 'A' <= s[0] <= 'Z' then s[0] - 'A' + 'a' else s[0]] + Lower(s[1..])
  }

  function Before(s: string, c: char): string {
    if s == "" || s[0] == c then "" else [s[0]] + Before(s[1..], c)
  }

  lemma {:induction false} BeforeStops(s: string, t: string, c: char)
    requires c !in s && (t == "" || t[0] == c)
    ensures Before(s + t, c) == s
  {
    if s == "" {
      assert s + t == t;
    } else {
      assert (s + t)[1..] == s[1..] + t;
      BeforeStops(s[1..], t, c);
    }
  }

  lemma {:induction false} BeforePasses(s: string, t: string, c: char)
    requires c !in s
    ensures Before(s + t, c) == s + Before(t, c)
  {
    if s == "" {
      assert s + t == t;
    } else {
      assert (s + t)[1..] == s[1..] + t;
      BeforePasses(s[1..], t, c);
    }
  }

  /** Capital letters, and only they, become small ones. */
  lemma {:induction false} LowerIs(s: string)
    ensures |Lower(s)| == |s|
    ensures forall i :: 0 <= i < |s| ==>
              if 'A' <= s[i] <= 'Z' then Lower(s)[i] as int == s[i] as int + 32 else Lower(s)[i] == s[i]
  {
    if s != "" {
      LowerIs(s[1..]);
    }
  }

  ghost predicate AllOf(s: string, c: char) {
    forall i :: 0 <= i < |s| ==> s[i] == c
  }

  lemma {:induction false} TrimsFront(front: string, s: string, c: char)
    requires AllOf(front, c) && (s == "" || s[0] != c)
    ensures TrimLeft(front + s, c) == s
  {
    if front == "" {
      assert front + s == s;
    } else {
      assert (front + s)[1..] == front[1..] + s;
      TrimsFront(front[1..], s, c);
    }
  }

  lemma {:induction false} TrimsBack(s: string, back: string, c: char)
    requires AllOf(back, c) && (s == "" || s[|s| - 1] != c)
    ensures TrimRight(s + back, c) == s
  {
    if back == "" {
      assert s + back == s;
    } else {
      assert (s + back)[..|s + back| - 1] == s + back[..|back| - 1];
      TrimsBack(s, back[..|back| - 1], c);
    }
  }

  lemma Trims(front: string, s: string, back: string, c: char)
    requires AllOf(front, c) && AllOf(back, c) && s != "" && s[0] != c && s[|s| - 1] != c
    ensures Trim(front + s + back, c) == s
  {
    assert front + s + back == front + (s + back);
    TrimsFront(front, s + back, c);
    TrimsBack(s, back, c);
  }

  lemma {:induction false} SplitOne(s: string, c: char)
    requires c !in s
    ensures Split(s, c) == [s]
  {
    if s != "" {
      SplitOne(s[1..], c);
      assert [s[0]] + s[1..] == s && [s][1..] == [];
    }
  }

  lemma {:induction false} SplitFirst(part: string, rest: string, c: char)
    requires c !in part
    ensures Split(part + [c] + rest, c) == [part] + Split(rest, c)
  {
    var s := part + [c] + rest;
    if part == "" {
      assert s == [c] + rest && s[1..] == rest;
    } else {
      assert s[1..] == part[1..] + [c] + rest && [part[0]] + part[1..] == part;
      SplitFirst(part[1..], rest, c);
      assert ([part[1..]] + Split(rest, c))[1..] == Split(rest, c);
    }
  }

  /** Parts without the separator, put together, are split into the same parts. */
  lemma {:induction false} JoinSplits(parts: seq<string>, c: char)
    requires parts != [] && forall p :: p in parts ==> c !in p
    ensures Split(Join(parts, c), c) == parts
  {
    if |parts| == 1 {
      SplitOne(parts[0], c);
    } else {
      JoinSplits(parts[1..], c);
      SplitFirst(parts[0], Join(parts[1..], c), c);
      assert [parts[0]] + parts[1..] == parts;
    }
  }

  lemma {:induction false} Trimmed(s: string, c: char)
    ensures forall d :: d in Trim(s, c) ==> d in s
  {
    TrimmedLeft(s, c);
    TrimmedRight(TrimLeft(s, c), c);
  }

  lemma NothingTrimmed(s: string, c: char)
    requires c !in s
    ensures Trim(s, c) == s
  {
    if s != "" {
      assert s[0] in s && s[|s| - 1] in s;
    }
  }

  lemma {:induction false} TrimmedLeft(s: string, c: char)
    ensures forall d :: d in TrimLeft(s, c) ==> d in s
  {
    if s != "" && s[0] == c {
      TrimmedLeft(s[1..], c);
    }
  }

  lemma {:induction false} TrimmedRight(s: string, c: char)
    ensures forall d :: d in TrimRight(s, c) ==> d in s
  {
    if s != "" && s[|s| - 1] == c {
      TrimmedRight(s[..|s| - 1], c);
    }
  }
}
