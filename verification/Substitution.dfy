/** Replacing the tags of a text: the code replaces the first occurrence of each matched tag in turn, agent tags
    last; the reference puts every tag's text in its own place. */
module Substitution {
  import opened Strings
  import opened Versions

  /* ---------- strings ---------- */

  function ReplaceFirst(s: string, t: string, text: string): string {
    FoundAt(s, t);
    match Find(s, t)
    case Some(i) => s[..i] + text + s[i + |t|..]
    case None => s
  }

  /** The spaces and tabs at the start. */
  function Blanks(s: string): (b: string)
    ensures b <= s
  {
    if s != "" && (s[0] == ' ' || s[0] == '\t') then [s[0]] + Blanks(s[1..]) else ""
  }

  /** What follows the first newline. */
  function NextLine(s: string): (r: Option<string>)
    ensures r.Some? ==> |r.value| < |s|
  {
    if s == "" then None else if s[0] == '\n' then Some(s[1..]) else NextLine(s[1..])
  }

  function LastLine(s: string): string
    decreases |s|
  {
    match NextLine(s)
    case Some(rest) => LastLine(rest)
    case None => s
  }

  predicate IsBlank(s: string) {
    Blanks(s) == s
  }

  /* ---------- what a tag stands for ---------- */

  datatype KeyType = KeyType(key: string, kind: string)

  /** What to do with one matched tag. */
  datatype Resolution = Unescaped(text: string) | Text(value: string) | Delayed(key: KeyType) | Kept

  datatype DelayedTag = DelayedTag(key: KeyType, tag: string)

  const SKIP_REPLACE := "SKIP_REPLACE"
  const AGENT := "agent"
  const MODULE_PREFIX := "module."

  /** The value of a key; errors stop the replacement. */
  type Values = KeyType -> Result<string>

  predicate IsTag(tag: string) {
    |tag| >= 4 && tag[..2] == "{{" && tag[|tag| - 2..] == "}}" && '\n' !in tag
  }

  function Inner(tag: string): string
    requires IsTag(tag)
  {
    tag[2..|tag| - 2]
  }

  predicate IsEscaped(key: string) {
    key != "" && key[0] == '`' && key[|key| - 1] == '`'
  }

  predicate IsQuoted(k: KeyType) {
    k.key != "" && k.key[0] == '"'
  }

  function ParseAlternative(alternative: string): Result<KeyType> {
    var key := TrimLeft(Trim(alternative, ' '), '.');
    if key != "" && key[0] == '"' then Ok(KeyType(key, ""))
    else if '.' !in key then Err("invalid replace tag format")
    else Ok(KeyType(key, Lower(Before(key, '.'))))
  }

  function ParseAll(alternatives: seq<string>): Result<seq<KeyType>> {
    if alternatives == [] then Ok([])
    else
      match ParseAlternative(alternatives[0])
      case Err(why) => Err(why)
      case Ok(k) =>
        match ParseAll(alternatives[1..])
        case Err(why) => Err(why)
        case Ok(rest) => Ok([k] + rest)
  }

  /** The first alternative that answers: a quoted default, an agent key, or a key with a value that is not empty. */
  function Choose(keys: seq<KeyType>, value: Values): (r: Result<Resolution>)
    ensures r.Ok? ==> r.value.Text? || r.value.Delayed?
  {
    if keys == [] then Ok(Text(""))
    else if IsQuoted(keys[0]) then Ok(Text(Trim(keys[0].key, '"')))
    else if keys[0].kind == AGENT then Ok(Delayed(keys[0]))
    else
      match value(keys[0])
      case Err(why) => Err(why)
      case Ok(v) => if v == "" then Choose(keys[1..], value) else Ok(Text(v))
  }

  function Resolve(tag: string, value: Values): Result<Resolution>
    requires IsTag(tag)
  {
    if IsEscaped(Inner(tag)) then Ok(Unescaped(Trim(Inner(tag), '`')))
    else
      match ParseAll(Split(Inner(tag), '|'))
      case Err(why) => Err(why)
      case Ok(keys) =>
        match Choose(keys, value)
        case Err(why) => Err(why)
        case Ok(r) => Ok(if r == Text(SKIP_REPLACE) then Kept else r)
  }

  /** A key passes on: it is looked up, found and empty. */
  ghost predicate PassesOn(k: KeyType, value: Values) {
    !("\"" <= k.key) && k.kind != "agent" && value(k) == Ok("")
  }

  /** The first key that does not pass on. */
  ghost predicate Answers(keys: seq<KeyType>, value: Values, i: nat) {
    i < |keys| && !PassesOn(keys[i], value) && forall j :: 0 <= j < i ==> PassesOn(keys[j], value)
  }

  /** What a key answers: a quoted default its text, an agent key its own delay, another key its value or its error. */
  ghost predicate IsAnswer(k: KeyType, value: Values, r: Result<Resolution>) {
    && (forall d :: k.key == "\"" + d + "\"" && Bare(d) ==> r == Ok(Text(d)))
    && (!("\"" <= k.key) && k.kind == "agent" ==> r == Ok(Delayed(k)))
    && (!("\"" <= k.key) && k.kind != "agent" ==>
          match value(k)
          case Err(why) => r == Err(why)
          case Ok(v) => r == Ok(Text(v)))
  }

  /** No quote at either end. */
  ghost predicate Bare(d: string) {
    d == "" || (d[0] != '"' && d[|d| - 1] != '"')
  }

  lemma QuotedIs(key: string, d: string)
    requires key == "\"" + d + "\"" && Bare(d)
    ensures Trim(key, '"') == d
  {
    assert key[1..] == d + "\"" && (d + "\"")[..|d|] == d;
    assert TrimLeft(key, '"') == TrimLeft(d + "\"", '"');
    if d == "" {
      assert d + "\"" == "\"";
    } else {
      assert TrimLeft(d + "\"", '"') == d + "\"" && TrimRight(d + "\"", '"') == TrimRight(d, '"');
    }
  }

  /** The first key that does not pass on gives the answer. */
  lemma {:induction false} ChoiceAnswers(keys: seq<KeyType>, value: Values, i: nat)
    requires Answers(keys, value, i)
    ensures IsAnswer(keys[i], value, Choose(keys, value))
  {
    if i > 0 {
      assert PassesOn(keys[0], value) && keys[1..][i - 1] == keys[i];
      ChoiceAnswers(keys[1..], value, i - 1);
    } else {
      forall d | keys[0].key == "\"" + d + "\"" && Bare(d) ensures Trim(keys[0].key, '"') == d {
        QuotedIs(keys[0].key, d);
      }
    }
  }

  lemma {:induction false} NoAnswer(keys: seq<KeyType>, value: Values)
    requires forall j :: 0 <= j < |keys| ==> PassesOn(keys[j], value)
    ensures Choose(keys, value) == Ok(Text(""))
  {
    if keys != [] {
      assert PassesOn(keys[0], value);
      NoAnswer(keys[1..], value);
    }
  }

  method ChooseReplacement(keys: seq<KeyType>, value: Values) returns (r: Result<Resolution>)
    ensures r == Choose(keys, value)
    ensures forall i: nat :: Answers(keys, value, i) ==> IsAnswer(keys[i], value, r)
    ensures (forall j :: 0 <= j < |keys| ==> PassesOn(keys[j], value)) ==> r == Ok(Text(""))
  {
    forall i: nat | Answers(keys, value, i) ensures IsAnswer(keys[i], value, Choose(keys, value)) {
      ChoiceAnswers(keys, value, i);
    }
    if forall j :: 0 <= j < |keys| ==> PassesOn(keys[j], value) {
      NoAnswer(keys, value);
    }
    for i := 0 to |keys|
      invariant Choose(keys, value) == Choose(keys[i..], value)
    {
      if IsQuoted(keys[i]) {
        return Ok(Text(Trim(keys[i].key, '"')));
      }
      if keys[i].kind == AGENT {
        return Ok(Delayed(keys[i]));
      }
      var v := value(keys[i]);
      if v.Err? {
        return Err(v.why);
      }
      if v.value != "" {
        return Ok(Text(v.value));
      }
      assert keys[i..][1..] == keys[i + 1..];
    }
    return Ok(Text(""));
  }

  /** Everything before the first alternative that does not pass on is without influence. */
  lemma {:induction false} FirstAnswerCounts(keys: seq<KeyType>, value: Values, i: nat)
    requires i <= |keys| && forall j :: 0 <= j < i ==> PassesOn(keys[j], value)
    ensures Choose(keys, value) == Choose(keys[i..], value)
  {
    if i > 0 {
      assert keys[0..] == keys && keys[i..] == keys[1..][i - 1..];
      FirstAnswerCounts(keys[1..], value, i - 1);
    }
  }

  lemma AlternativeTrimmed(front: string, dots: string, key: string, back: string)
    requires AllOf(front, ' ') && AllOf(dots, '.') && AllOf(back, ' ')
    requires key != "" && key[0] != ' ' && key[0] != '.' && key[|key| - 1] != ' '
    ensures TrimLeft(Trim(front + dots + key + back, ' '), '.') == key
  {
    var s := dots + key;
    assert front + dots + key + back == front + s + back;
    assert s[|s| - 1] == key[|key| - 1] && (dots != "" ==> s[0] == dots[0] == '.');
    Trims(front, s, back, ' ');
    TrimsFront(dots, key, '.');
  }

  /** How an alternative is read: blanks around it and dots before it do not matter; a quoted text has no kind, and the
      kind of another key is the part before its first dot, in small letters. */
  lemma AlternativeIs(front: string, dots: string, key: string, back: string)
    requires AllOf(front, ' ') && AllOf(dots, '.') && AllOf(back, ' ')
    requires key != "" && key[0] != ' ' && key[0] != '.' && key[|key| - 1] != ' '
    ensures ParseAlternative(front + dots + key + back) ==
            if key[0] == '"' then Ok(KeyType(key, ""))
            else if '.' in key then Ok(KeyType(key, Lower(Before(key, '.'))))
            else Err("invalid replace tag format")
  {
    AlternativeTrimmed(front, dots, key, back);
  }

  lemma KindIs(head: string, rest: string)
    requires '.' !in head
    ensures Before(head + "." + rest, '.') == head
  {
    assert head + "." + rest == head + ("." + rest);
    BeforeStops(head, "." + rest, '.');
  }

  lemma {:induction false} ParsedAll(alternatives: seq<string>, keys: seq<KeyType>)
    requires |keys| == |alternatives| && forall i :: 0 <= i < |keys| ==> ParseAlternative(alternatives[i]) == Ok(keys[i])
    ensures ParseAll(alternatives) == Ok(keys)
  {
    if alternatives != [] {
      assert ParseAlternative(alternatives[0]) == Ok(keys[0]);
      ParsedAll(alternatives[1..], keys[1..]);
      assert [keys[0]] + keys[1..] == keys;
    }
  }

  /** A tag of alternatives separated by "|" resolves to the answer of the first that does not pass on, or to nothing;
      one text keeps the tag as it is. */
  lemma TagAnswers(t: string, alternatives: seq<string>, keys: seq<KeyType>, value: Values) returns (r: Result<Resolution>)
    requires IsTag(t) && Inner(t) == Join(alternatives, '|') && alternatives != [] && |keys| == |alternatives|
    requires forall a :: a in alternatives ==> '|' !in a
    requires Inner(t) == "" || !(Inner(t)[0] == '`' && Inner(t)[|Inner(t)| - 1] == '`')
    requires forall i :: 0 <= i < |keys| ==> ParseAlternative(alternatives[i]) == Ok(keys[i])
    ensures Resolve(t, value) == if r == Ok(Text("SKIP_REPLACE")) then Ok(Kept) else r
    ensures forall i: nat :: Answers(keys, value, i) ==> IsAnswer(keys[i], value, r)
    ensures (forall j :: 0 <= j < |keys| ==> PassesOn(keys[j], value)) ==> r == Ok(Text(""))
  {
    r := Choose(keys, value);
    JoinSplits(alternatives, '|');
    ParsedAll(alternatives, keys);
    forall i: nat | Answers(keys, value, i) ensures IsAnswer(keys[i], value, r) {
      ChoiceAnswers(keys, value, i);
    }
    if forall j :: 0 <= j < |keys| ==> PassesOn(keys[j], value) {
      NoAnswer(keys, value);
    }
  }

  /* ---------- the sequential replacement ---------- */

  /** The indentation of the first line that starts with the tag; `s` starts at a line start. */
  function Indentation(s: string, tag: string): string
    decreases |s|
  {
    if tag <= s[|Blanks(s)|..] then Blanks(s)
    else
      match NextLine(s)
      case Some(rest) => Indentation(rest, tag)
      case None => ""
  }

  function Indented(v: string, indent: string): string {
    if v == "" then "" else if v[0] == '\n' then "\n" + indent + Indented(v[1..], indent) else [v[0]] + Indented(v[1..], indent)
  }

  /** The lines of a value, all but the first behind the indentation. */
  function IndentedLines(lines: seq<string>, indent: string): seq<string> {
    seq(|lines|, i requires 0 <= i < |lines| => if i == 0 then lines[0] else indent + lines[i])
  }

  lemma JoinHead(x: string, y: string, rest: seq<string>, c: char)
    ensures Join([x + y] + rest, c) == x + Join([y] + rest, c)
  {
    assert ([x + y] + rest)[1..] == rest && ([y] + rest)[1..] == rest;
    if rest != [] {
      assert x + y + [c] + Join(rest, c) == x + (y + [c] + Join(rest, c));
    }
  }

  lemma NewLineIndented(rest: seq<string>, indent: string)
    requires rest != []
    ensures Join(IndentedLines([""] + rest, indent), '\n') == "\n" + indent + Join(IndentedLines(rest, indent), '\n')
  {
    var tail := IndentedLines(rest, indent)[1..];
    assert IndentedLines(rest, indent) == [rest[0]] + tail;
    assert IndentedLines([""] + rest, indent) == [""] + ([indent + rest[0]] + tail);
    JoinHead(indent, rest[0], tail, '\n');
    JoinNext("", [indent + rest[0]] + tail, '\n');
  }

  lemma JoinNext(x: string, rest: seq<string>, c: char)
    requires rest != []
    ensures Join([x] + rest, c) == x + [c] + Join(rest, c)
  {
    assert ([x] + rest)[1..] == rest;
  }

  lemma CharIndented(c: char, rest: seq<string>, indent: string)
    requires rest != []
    ensures Join(IndentedLines([[c] + rest[0]] + rest[1..], indent), '\n') == [c] + Join(IndentedLines(rest, indent), '\n')
  {
    var tail := IndentedLines(rest, indent)[1..];
    assert IndentedLines(rest, indent) == [rest[0]] + tail;
    assert IndentedLines([[c] + rest[0]] + rest[1..], indent) == [[c] + rest[0]] + tail;
    JoinHead([c], rest[0], tail, '\n');
  }

  /** Indenting a value puts the indentation in front of every line but the first. */
  lemma {:induction false} IndentedIsLines(v: string, indent: string)
    ensures Indented(v, indent) == Join(IndentedLines(Split(v, '\n'), indent), '\n')
  {
    if v != "" {
      var rest := Split(v[1..], '\n');
      IndentedIsLines(v[1..], indent);
      if v[0] == '\n' {
        NewLineIndented(rest, indent);
      } else {
        CharIndented(v[0], rest, indent);
      }
    } else {
      assert IndentedLines([""], indent) == [""];
    }
  }

  /** The blanks at the start are spaces and tabs, and all of them. */
  lemma {:induction false} BlanksAre(s: string)
    ensures forall c :: c in Blanks(s) ==> c == ' ' || c == '\t'
    ensures |Blanks(s)| <= |s| && (|Blanks(s)| < |s| ==> s[|Blanks(s)|] != ' ' && s[|Blanks(s)|] != '\t')
  {
    if s != "" && (s[0] == ' ' || s[0] == '\t') {
      BlanksAre(s[1..]);
    }
  }

  /** The next line begins behind the first newline. */
  lemma {:induction false} NextLineIs(front: string, rest: string)
    ensures '\n' !in front ==> NextLine(front + "\n" + rest) == Some(rest)
    ensures '\n' !in front ==> NextLine(front) == None && LastLine(front) == front
  {
    if front != "" {
      assert (front + "\n" + rest)[1..] == front[1..] + "\n" + rest;
      NextLineIs(front[1..], rest);
    } else {
      assert ("\n" + rest)[1..] == rest && "" + "\n" + rest == "\n" + rest;
    }
  }

  /** One iteration of the loop over the matches. */
  function Step(content: string, tag: string, r: Resolution): string {
    match r
    case Unescaped(text) => ReplaceFirst(content, tag, text)
    case Text(v) =>
      var w := if '\n' in v then Indented(v, Indentation(content, tag)) else v;
      var next := ReplaceFirst(content, tag, w);
      if MODULE_PREFIX <= w then ReplaceFirst(next, "\"" + w + "\"", w) else next
    case _ => content
  }

  datatype Replaced = Replaced(content: string, delayed: seq<DelayedTag>)

  function Sequential(content: string, tags: seq<string>, value: Values): Result<Replaced>
    requires forall t :: t in tags ==> IsTag(t)
    decreases |tags|
  {
    if tags == [] then Ok(Replaced(content, []))
    else
      match Resolve(tags[0], value)
      case Err(why) => Err(why)
      case Ok(r) =>
        match Sequential(Step(content, tags[0], r), tags[1..], value)
        case Err(why) => Err(why)
        case Ok(rest) =>
          Ok(if r.Delayed? then Replaced(rest.content, [DelayedTag(r.key, tags[0])] + rest.delayed) else rest)
  }

  function SequentialDelayed(content: string, delayed: seq<DelayedTag>, value: Values): Result<string>
    decreases |delayed|
  {
    if delayed == [] then Ok(content)
    else
      match value(delayed[0].key)
      case Err(why) => Err(why)
      case Ok(v) => SequentialDelayed(ReplaceFirst(content, delayed[0].tag, v), delayed[1..], value)
  }

  function Joined(before: seq<DelayedTag>, r: Result<Replaced>): Result<Replaced> {
    match r
    case Err(why) => Err(why)
    case Ok(done) => Ok(Replaced(done.content, before + done.delayed))
  }

  method ResolveTag(tag: string, value: Values) returns (r: Result<Resolution>)
    requires IsTag(tag)
    ensures r == Resolve(tag, value)
  {
    var key := Inner(tag);
    if IsEscaped(key) {
      return Ok(Unescaped(Trim(key, '`')));
    }
    var keys := ParseAll(Split(key, '|'));
    if keys.Err? {
      return Err(keys.why);
    }
    r := ChooseReplacement(keys.value, value);
    if r == Ok(Text(SKIP_REPLACE)) {
      r := Ok(Kept);
    }
  }

  function LaterTag(r: Resolution, tag: string): seq<DelayedTag> {
    if r.Delayed? then [DelayedTag(r.key, tag)] else []
  }

  lemma SequentialFails(before: seq<DelayedTag>, text: string, tags: seq<string>, value: Values)
    requires tags != [] && (forall t :: t in tags ==> IsTag(t)) && Resolve(tags[0], value).Err?
    ensures Joined(before, Sequential(text, tags, value)) == Err(Resolve(tags[0], value).why)
  {
  }

  lemma SequentialNext(content: string, tag: string, rest: seq<string>, r: Resolution, value: Values)
    requires IsTag(tag) && (forall t :: t in rest ==> IsTag(t)) && Resolve(tag, value) == Ok(r)
    ensures var done := Sequential(Step(content, tag, r), rest, value);
            done.Ok? ==>
              Sequential(content, [tag] + rest, value)
              == Ok(Replaced(done.value.content, LaterTag(r, tag) + done.value.delayed))
  {
    assert ([tag] + rest)[1..] == rest;
    var done := Sequential(Step(content, tag, r), rest, value);
    if done.Ok? {
      assert [] + done.value.delayed == done.value.delayed;
    }
  }

  /** One turn that delays nothing, and all others. */
  lemma PlainTurn(content: string, tag: string, rest: seq<string>, r: Resolution, value: Values, last: string)
    requires IsTag(tag) && (forall t :: t in rest ==> IsTag(t)) && Resolve(tag, value) == Ok(r) && !r.Delayed?
    requires Sequential(Step(content, tag, r), rest, value) == Ok(Replaced(last, []))
    ensures Sequential(content, [tag] + rest, value) == Ok(Replaced(last, []))
  {
    SequentialNext(content, tag, rest, r, value);
  }

  lemma SequentialErrs(content: string, tag: string, rest: seq<string>, r: Resolution, value: Values)
    requires IsTag(tag) && (forall t :: t in rest ==> IsTag(t)) && Resolve(tag, value) == Ok(r)
    ensures var done := Sequential(Step(content, tag, r), rest, value);
            done.Err? ==> Sequential(content, [tag] + rest, value) == Err(done.why)
  {
    assert ([tag] + rest)[1..] == rest;
  }

  lemma SequentialTurn(before: seq<DelayedTag>, text: string, tags: seq<string>, here: Resolution, value: Values)
    requires tags != [] && (forall t :: t in tags ==> IsTag(t)) && Resolve(tags[0], value) == Ok(here)
    ensures Joined(before, Sequential(text, tags, value))
            == Joined(before + LaterTag(here, tags[0]), Sequential(Step(text, tags[0], here), tags[1..], value))
  {
    var rest := Sequential(Step(text, tags[0], here), tags[1..], value);
    assert tags == [tags[0]] + tags[1..];
    SequentialErrs(text, tags[0], tags[1..], here, value);
    SequentialNext(text, tags[0], tags[1..], here, value);
    if rest.Ok? {
      JoinedTwice(before, LaterTag(here, tags[0]), rest.value);
    }
  }

  lemma JoinedTwice(before: seq<DelayedTag>, here: seq<DelayedTag>, rest: Replaced)
    ensures Joined(before, Ok(Replaced(rest.content, here + rest.delayed))) == Joined(before + here, Ok(rest))
  {
    assert before + (here + rest.delayed) == before + here + rest.delayed;
  }

  method ReplaceStringValues(content: string, tags: seq<string>, value: Values) returns (r: Result<Replaced>)
    requires forall t :: t in tags ==> IsTag(t)
    ensures r == Sequential(content, tags, value)
  {
    var text, delayed := content, [];
    ghost var whole := Sequential(content, tags, value);
    assert tags[0..] == tags && (whole.Ok? ==> [] + whole.value.delayed == whole.value.delayed);
    for i := 0 to |tags|
      invariant whole == Joined(delayed, Sequential(text, tags[i..], value))
    {
      var tag := tags[i];
      assert tags[i..][1..] == tags[i + 1..] && tags[i..][0] == tag;
      var resolved := ResolveTag(tag, value);
      if resolved.Err? {
        SequentialFails(delayed, text, tags[i..], value);
        return Err(resolved.why);
      }
      SequentialTurn(delayed, text, tags[i..], resolved.value, value);
      if resolved.value.Delayed? {
        delayed := delayed + [DelayedTag(resolved.value.key, tag)];
        continue;
      }
      assert delayed + [] == delayed;
      text := Step(text, tag, resolved.value);
    }
    assert tags[|tags|..] == [] && delayed + [] == delayed;
    return Ok(Replaced(text, delayed));
  }

  method ReplaceDelayedStringValues(content: string, delayed: seq<DelayedTag>, value: Values) returns (r: Result<string>)
    ensures r == SequentialDelayed(content, delayed, value)
  {
    var text := content;
    for i := 0 to |delayed|
      invariant SequentialDelayed(content, delayed, value) == SequentialDelayed(text, delayed[i..], value)
    {
      assert delayed[i..][1..] == delayed[i + 1..];
      var v := value(delayed[i].key);
      if v.Err? {
        return Err(v.why);
      }
      text := ReplaceFirst(text, delayed[i].tag, v.value);
    }
    return Ok(text);
  }

  /* ---------- the positional replacement ---------- */

  /** A tag with the text that separates it from the tag before. The quotes around a tag belong to a `quoted` piece:
      they go when the tag becomes a reference to a module. */
  datatype Piece = Piece(literal: string, tag: string, quoted: bool)

  ghost predicate AllTags(ps: seq<Piece>) {
    forall k :: 0 <= k < |ps| ==> IsTag(ps[k].tag)
  }

  function TagsOf(ps: seq<Piece>): seq<string> {
    seq(|ps|, i requires 0 <= i < |ps| => ps[i].tag)
  }

  function Quoted(s: string): string { "\"" + s + "\"" }

  function Span(p: Piece): string {
    if p.quoted then Quoted(p.tag) else p.tag
  }

  /** What stands in the places of the pieces before anything is replaced. */
  function SpansOf(ps: seq<Piece>): seq<string> {
    seq(|ps|, i requires 0 <= i < |ps| => Span(ps[i]))
  }

  /** The text with `texts` in the places of the tags. */
  function Laid(ps: seq<Piece>, texts: seq<string>): string
    requires |texts| == |ps|
  {
    if ps == [] then "" else ps[0].literal + texts[0] + Laid(ps[1..], texts[1..])
  }

  /** What comes before the tag of piece `k`. */
  function Prefix(ps: seq<Piece>, texts: seq<string>, k: nat): string
    requires k < |ps| && k <= |texts|
  {
    Laid(ps[..k], texts[..k]) + ps[k].literal
  }

  /** Continuation lines are indented like the line, if nothing but blanks precedes the value on it. */
  function FitIn(before: string, v: string): string {
    if '\n' in v && IsBlank(LastLine(before)) then Indented(v, LastLine(before)) else v
  }

  /** What stands before the tag itself. */
  function Lead(before: string, p: Piece): string {
    if p.quoted then before + "\"" else before
  }

  /** The text that takes the place of a piece. */
  function Put(before: string, p: Piece, r: Resolution): string {
    match r
    case Unescaped(text) => text
    case Text(v) => FitIn(Lead(before, p), v)
    case _ => p.tag
  }

  /** Every tag replaced in its own place, from left to right. */
  function OnePass(ps: seq<Piece>, res: seq<Resolution>): (texts: seq<string>)
    requires |res| == |ps|
    ensures |texts| == |ps|
  {
    if ps == [] then []
    else
      var n := |ps| - 1;
      var front := OnePass(ps[..n], res[..n]);
      front + [Put(Laid(ps[..n], front) + ps[n].literal, ps[n], res[n])]
  }

  /** The agent tags of a one-pass text replaced as well. */
  function Final(texts: seq<string>, res: seq<Resolution>, value: Values): (final: seq<string>)
    requires |res| == |texts|
    ensures |final| == |texts|
  {
    seq(|texts|, i requires 0 <= i < |texts| =>
      if res[i].Delayed? && value(res[i].key).Ok? then value(res[i].key).value else texts[i])
  }

  function DelayedFrom(tags: seq<string>, res: seq<Resolution>, k: nat): seq<DelayedTag>
    requires |res| == |tags| && k <= |tags|
    decreases |tags| - k
  {
    if k == |tags| then []
    else LaterTag(res[k], tags[k]) + DelayedFrom(tags, res, k + 1)
  }

  /** The tag does not stand earlier in the text, not even partly over its own place. */
  ghost predicate FirstHere(before: string, tag: string) {
    forall i: nat :: i < |before| ==> !At(before + tag, tag, i)
  }

  function IndentationAfter(after: string, tag: string): string {
    match NextLine(after)
    case Some(rest) => Indentation(rest, tag)
    case None => ""
  }

  /** The value becomes a reference to a module: a quoted one loses its own quotes, and there are no others. */
  ghost predicate Unquotes(before: string, after: string, quoted: bool, w: string) {
    if !(MODULE_PREFIX <= w) then !quoted
    else if quoted then FirstHere(before, Quoted(w))
    else Find(before + w + after, Quoted(w)) == None
  }

  /** The condition for one replacement to happen in place. */
  ghost predicate InPlace(before: string, after: string, p: Piece, r: Resolution) {
    match r
    case Unescaped(_) => !p.quoted && FirstHere(before, p.tag)
    case Text(v) =>
      var lead, rest := Lead(before, p), if p.quoted then "\"" + after else after;
      && FirstHere(lead, p.tag)
      && ('\n' in v && !IsBlank(LastLine(lead)) ==> IndentationAfter(rest, p.tag) == "")
      && Unquotes(before, after, p.quoted, FitIn(lead, v))
    case _ => !p.quoted
  }

  lemma {:induction false} OnePassAt(ps: seq<Piece>, res: seq<Resolution>, k: nat)
    requires |res| == |ps| && k < |ps|
    ensures OnePass(ps, res)[k] == Put(Prefix(ps, OnePass(ps, res), k), ps[k], res[k])
  {
    var n := |ps| - 1;
    var texts := OnePass(ps, res);
    if k < n {
      OnePassAt(ps[..n], res[..n], k);
      assert ps[..n][..k] == ps[..k] && texts[..n] == OnePass(ps[..n], res[..n]) && texts[..n][..k] == texts[..k];
    } else {
      assert texts[..n] == OnePass(ps[..n], res[..n]);
    }
  }

  lemma {:induction false} LaidSplit(ps: seq<Piece>, texts: seq<string>, k: nat)
    requires |texts| == |ps| && k <= |ps|
    ensures Laid(ps, texts) == Laid(ps[..k], texts[..k]) + Laid(ps[k..], texts[k..])
  {
    if k > 0 {
      LaidSplit(ps[1..], texts[1..], k - 1);
      assert ps[1..][..k - 1] == ps[..k][1..] && texts[1..][..k - 1] == texts[..k][1..];
      assert ps[1..][k - 1..] == ps[k..] && texts[1..][k - 1..] == texts[k..];
    } else {
      assert ps[0..] == ps && texts[0..] == texts;
    }
  }

  lemma LaidNext(ps: seq<Piece>, texts: seq<string>, k: nat)
    requires |texts| == |ps| && k < |ps|
    ensures Laid(ps[..k + 1], texts[..k + 1]) == Prefix(ps, texts, k) + texts[k]
    ensures Laid(ps[k..], texts[k..]) == ps[k].literal + texts[k] + Laid(ps[k + 1..], texts[k + 1..])
  {
    LaidSplit(ps[..k + 1], texts[..k + 1], k);
    assert ps[..k + 1][..k] == ps[..k] && texts[..k + 1][..k] == texts[..k];
    assert ps[..k + 1][k..] == [ps[k]] && texts[..k + 1][k..] == [texts[k]];
    assert Laid([ps[k]], [texts[k]]) == ps[k].literal + texts[k];
    assert ps[k..][1..] == ps[k + 1..] && texts[k..][1..] == texts[k + 1..];
  }

  lemma {:induction false} ReplacedHere(before: string, tag: string, after: string, text: string)
    requires FirstHere(before, tag)
    ensures ReplaceFirst(before + tag + after, tag, text) == before + text + after
  {
    var s := before + tag + after;
    forall i: nat | i < |before| ensures !At(s, tag, i) {
      assert s[i..i + |tag|] == (before + tag)[i..i + |tag|];
      assert !At(before + tag, tag, i);
    }
    FindsFirst(s, tag, |before|);
  }

  lemma {:induction false} NextLineOf(s: string, t: string)
    ensures match NextLine(s)
            case Some(rest) => |rest| < |s| && rest == s[|s| - |rest|..] && NextLine(s + t) == Some(rest + t)
            case None => NextLine(s + t) == NextLine(t)
  {
    if s == "" {
      assert s + t == t;
    } else {
      assert (s + t)[1..] == s[1..] + t;
      NextLineOf(s[1..], t);
    }
  }

  lemma {:induction false} BlanksOf(s: string, t: string)
    ensures if IsBlank(s) then Blanks(s + t) == s + Blanks(t) else Blanks(s + t) == Blanks(s) && |Blanks(s)| < |s|
  {
    if s == "" {
      assert s + t == t;
    } else {
      assert (s + t)[1..] == s[1..] + t && s == [s[0]] + s[1..];
      BlanksOf(s[1..], t);
    }
  }

  lemma NoNewline(s: string)
    requires '\n' !in s
    ensures NextLine(s) == None
  {
  }

  /** The line of the tag: it is found there if only blanks precede it. */
  lemma IndentationOnLine(before: string, tag: string, after: string)
    requires IsTag(tag) && FirstHere(before, tag) && NextLine(before).None?
    ensures Indentation(before + (tag + after), tag) == if IsBlank(before) then before else IndentationAfter(after, tag)
  {
    var s := before + (tag + after);
    BlanksOf(before, tag + after);
    NextLineOf(before, tag + after);
    NoNewline(tag);
    NextLineOf(tag, after);
    if IsBlank(before) {
      assert Blanks(tag + after) == "";
      assert s[|before|..] == tag + after;
    } else {
      NotAtLineStart(before, tag, after);
    }
  }

  lemma NotAtLineStart(before: string, tag: string, after: string)
    requires FirstHere(before, tag) && !IsBlank(before)
    ensures var s := before + (tag + after); !(tag <= s[|Blanks(s)|..])
  {
    var s := before + (tag + after);
    var b := |Blanks(before)|;
    BlanksOf(before, tag + after);
    assert s[b..b + |tag|] == (before + tag)[b..b + |tag|] && s[b..][..|tag|] == s[b..b + |tag|];
    assert !At(before + tag, tag, b);
  }

  lemma FirstHereOnLine(before: string, n: nat, tag: string)
    requires FirstHere(before, tag) && n <= |before|
    ensures FirstHere(before[n..], tag)
  {
    forall i: nat | i < |before| - n ensures !At(before[n..] + tag, tag, i) {
      assert !At(before + tag, tag, i + n);
      assert (before[n..] + tag)[i..i + |tag|] == (before + tag)[i + n..i + n + |tag|];
    }
  }

  /** The indentation found is the one of the tag's own line, or of a later line. */
  lemma {:induction false} IndentationHere(before: string, tag: string, after: string)
    requires IsTag(tag) && FirstHere(before, tag)
    ensures Indentation(before + (tag + after), tag) ==
            if IsBlank(LastLine(before)) then LastLine(before) else IndentationAfter(after, tag)
    decreases |before|
  {
    if NextLine(before).None? {
      IndentationOnLine(before, tag, after);
    } else {
      var rest := NextLine(before).value;
      NextLineOf(before, tag + after);
      NewlineIsNotBlank(before);
      NotAtLineStart(before, tag, after);
      FirstHereOnLine(before, |before| - |rest|, tag);
      IndentationHere(rest, tag, after);
    }
  }

  lemma {:induction false} NewlineIsNotBlank(s: string)
    requires NextLine(s).Some?
    ensures !IsBlank(s)
  {
    if s[0] != '\n' {
      NewlineIsNotBlank(s[1..]);
    }
  }

  function IndentationFor(before: string, after: string, tag: string): string {
    if IsBlank(LastLine(before)) then LastLine(before) else IndentationAfter(after, tag)
  }

  lemma IndentationIn(before: string, tag: string, after: string)
    requires IsTag(tag) && FirstHere(before, tag)
    ensures Indentation(before + tag + after, tag) == IndentationFor(before, after, tag)
  {
    assert before + (tag + after) == before + tag + after;
    IndentationHere(before, tag, after);
  }

  lemma ValueFits(before: string, tag: string, after: string, v: string)
    requires '\n' in v && !IsBlank(LastLine(before)) ==> IndentationAfter(after, tag) == ""
    ensures (if '\n' in v then Indented(v, IndentationFor(before, after, tag)) else v) == FitIn(before, v)
  {
    IndentedByNothing(v);
  }

  /** Replacing a tag by a value where it stands, before the quotes are looked at. */
  lemma ValueInPlace(lead: string, tag: string, rest: string, v: string)
    requires IsTag(tag) && FirstHere(lead, tag)
    requires '\n' in v && !IsBlank(LastLine(lead)) ==> IndentationAfter(rest, tag) == ""
    ensures var s := lead + tag + rest;
            && (if '\n' in v then Indented(v, Indentation(s, tag)) else v) == FitIn(lead, v)
            && ReplaceFirst(s, tag, FitIn(lead, v)) == lead + FitIn(lead, v) + rest
  {
    IndentationIn(lead, tag, rest);
    ValueFits(lead, tag, rest, v);
    ReplacedHere(lead, tag, rest, FitIn(lead, v));
  }

  lemma QuotedInPlace(before: string, p: Piece, after: string, v: string)
    requires p.quoted && IsTag(p.tag) && InPlace(before, after, p, Text(v))
    ensures Step(before + Span(p) + after, p.tag, Text(v)) == before + Put(before, p, Text(v)) + after
  {
    var lead, rest := before + "\"", "\"" + after;
    var w := FitIn(lead, v);
    assert before + Span(p) + after == lead + p.tag + rest;
    ValueInPlace(lead, p.tag, rest, v);
    assert lead + w + rest == before + Quoted(w) + after;
    ReplacedHere(before, Quoted(w), after, w);
  }

  lemma StepInPlace(before: string, p: Piece, after: string, r: Resolution)
    requires IsTag(p.tag) && InPlace(before, after, p, r)
    ensures Step(before + Span(p) + after, p.tag, r) == before + Put(before, p, r) + after
  {
    match r {
      case Unescaped(text) => ReplacedHere(before, p.tag, after, text);
      case Text(v) =>
        if p.quoted {
          QuotedInPlace(before, p, after, v);
        } else {
          ValueInPlace(before, p.tag, after, v);
        }
      case _ =>
    }
  }

  lemma {:induction false} IndentedByNothing(v: string)
    ensures Indented(v, "") == v
  {
    if v != "" {
      IndentedByNothing(v[1..]);
    }
  }

  /* ---------- sequential is one-pass ---------- */

  ghost predicate Resolved(ps: seq<Piece>, res: seq<Resolution>, value: Values) {
    && |res| == |ps| && AllTags(ps)
    && forall k :: 0 <= k < |ps| ==> Resolve(ps[k].tag, value) == Ok(res[k])
  }

  /** What follows the tag of piece `k`. */
  function After(ps: seq<Piece>, texts: seq<string>, tail: string, k: nat): string
    requires k < |ps| == |texts|
  {
    Laid(ps[k + 1..], texts[k + 1..]) + tail
  }

  /** The text when the first `k` tags have had their turn. */
  function Half(ps: seq<Piece>, done: seq<string>, todo: seq<string>, tail: string, k: nat): string
    requires k <= |ps| == |done| == |todo|
  {
    Laid(ps[..k], done[..k]) + Laid(ps[k..], todo[k..]) + tail
  }

  lemma HalfNext(ps: seq<Piece>, done: seq<string>, todo: seq<string>, tail: string, k: nat)
    requires k < |ps| == |done| == |todo|
    ensures Half(ps, done, todo, tail, k) == Prefix(ps, done, k) + todo[k] + After(ps, todo, tail, k)
    ensures Half(ps, done, todo, tail, k + 1) == Prefix(ps, done, k) + done[k] + After(ps, todo, tail, k)
  {
    LaidNext(ps, done, k);
    LaidNext(ps, todo, k);
  }

  lemma HalfEnds(ps: seq<Piece>, done: seq<string>, todo: seq<string>, tail: string)
    requires |ps| == |done| == |todo|
    ensures Half(ps, done, todo, tail, 0) == Laid(ps, todo) + tail
    ensures Half(ps, done, todo, tail, |ps|) == Laid(ps, done) + tail
  {
    assert ps[0..] == ps && todo[0..] == todo && ps[..|ps|] == ps && done[..|ps|] == done;
    assert ps[..0] == [] && done[..0] == [] && ps[|ps|..] == [] && todo[|ps|..] == [];
    NothingAround(Laid(ps, todo), tail);
    NothingAround(Laid(ps, done), tail);
  }

  lemma NothingAround(s: string, tail: string)
    ensures "" + s + tail == s + tail && s + "" + tail == s + tail
  {
    assert "" + s == s && s + "" == s;
  }

  /** Every replacement of the first phase can happen in place. */
  ghost predicate AllInPlace(ps: seq<Piece>, res: seq<Resolution>, tail: string)
    requires |res| == |ps|
  {
    forall k :: 0 <= k < |ps| ==> InPlace(Prefix(ps, OnePass(ps, res), k), After(ps, SpansOf(ps), tail, k), ps[k], res[k])
  }

  lemma OneStep(ps: seq<Piece>, res: seq<Resolution>, tail: string, value: Values, k: nat)
    requires Resolved(ps, res, value) && AllInPlace(ps, res, tail) && k < |ps|
    ensures Step(Half(ps, OnePass(ps, res), SpansOf(ps), tail, k), ps[k].tag, res[k])
            == Half(ps, OnePass(ps, res), SpansOf(ps), tail, k + 1)
  {
    HalfNext(ps, OnePass(ps, res), SpansOf(ps), tail, k);
    OnePassAt(ps, res, k);
    StepInPlace(Prefix(ps, OnePass(ps, res), k), ps[k], After(ps, SpansOf(ps), tail, k), res[k]);
  }

  ghost predicate IsTurn(texts: seq<string>, tags: seq<string>, res: seq<Resolution>, k: nat)
    requires |texts| == |tags| + 1 == |res| + 1 && k < |tags|
  {
    texts[k + 1] == Step(texts[k], tags[k], res[k])
  }

  /** Each text is what one turn makes of the text before. */
  ghost predicate IsRun(texts: seq<string>, tags: seq<string>, res: seq<Resolution>) {
    && |texts| == |tags| + 1 == |res| + 1
    && forall k :: 0 <= k < |tags| ==> IsTurn(texts, tags, res, k)
  }

  /** The texts that the loop goes through. */
  function RunOf(content: string, tags: seq<string>, res: seq<Resolution>): (texts: seq<string>)
    requires |res| == |tags|
    ensures |texts| > 0 && texts[0] == content && IsRun(texts, tags, res)
    decreases |tags|
  {
    if tags == [] then [content]
    else
      var rest := RunOf(Step(content, tags[0], res[0]), tags[1..], res[1..]);
      var texts := [content] + rest;
      assert forall k :: 0 < k < |tags| ==> IsTurn(rest, tags[1..], res[1..], k - 1) ==> IsTurn(texts, tags, res, k);
      texts
  }

  lemma {:induction false} RunIsSequential(texts: seq<string>, tags: seq<string>, res: seq<Resolution>, value: Values, k: nat)
    requires IsRun(texts, tags, res) && k <= |tags|
    requires forall t :: t in tags ==> IsTag(t)
    requires forall j :: 0 <= j < |tags| ==> Resolve(tags[j], value) == Ok(res[j])
    ensures Sequential(texts[k], tags[k..], value) == Ok(Replaced(texts[|tags|], DelayedFrom(tags, res, k)))
    decreases |tags| - k
  {
    if k == |tags| {
      assert tags[k..] == [];
    } else {
      RunIsSequential(texts, tags, res, value, k + 1);
      assert IsTurn(texts, tags, res, k);
      SequentialTurnOf(texts[k], tags, res, value, k, texts[|tags|]);
    }
  }

  lemma SequentialTurnOf(text: string, tags: seq<string>, res: seq<Resolution>, value: Values, k: nat, last: string)
    requires k < |tags| == |res| && (forall t :: t in tags ==> IsTag(t)) && Resolve(tags[k], value) == Ok(res[k])
    requires Sequential(Step(text, tags[k], res[k]), tags[k + 1..], value) == Ok(Replaced(last, DelayedFrom(tags, res, k + 1)))
    ensures Sequential(text, tags[k..], value) == Ok(Replaced(last, DelayedFrom(tags, res, k)))
  {
    SequentialNext(text, tags[k], tags[k + 1..], res[k], value);
    assert [tags[k]] + tags[k + 1..] == tags[k..];
  }

  lemma AllSteps(ps: seq<Piece>, res: seq<Resolution>, tail: string, value: Values) returns (texts: seq<string>)
    requires Resolved(ps, res, value) && AllInPlace(ps, res, tail)
    ensures IsRun(texts, TagsOf(ps), res)
    ensures texts[0] == Laid(ps, SpansOf(ps)) + tail && texts[|ps|] == Laid(ps, OnePass(ps, res)) + tail
  {
    texts := seq(|ps| + 1, k requires 0 <= k <= |ps| => Half(ps, OnePass(ps, res), SpansOf(ps), tail, k));
    HalfEnds(ps, OnePass(ps, res), SpansOf(ps), tail);
    forall k | 0 <= k < |ps| ensures IsTurn(texts, TagsOf(ps), res, k) {
      OneStep(ps, res, tail, value, k);
    }
  }

  /** When every replacement can happen in place, replacing first occurrences one after the other puts each
      tag's text in its own place. */
  lemma SequentialIsOnePass(ps: seq<Piece>, res: seq<Resolution>, tail: string, value: Values)
    requires Resolved(ps, res, value) && AllInPlace(ps, res, tail)
    ensures forall t :: t in TagsOf(ps) ==> IsTag(t)
    ensures Sequential(Laid(ps, SpansOf(ps)) + tail, TagsOf(ps), value)
            == Ok(Replaced(Laid(ps, OnePass(ps, res)) + tail, DelayedFrom(TagsOf(ps), res, 0)))
  {
    var texts := AllSteps(ps, res, tail, value);
    RunIsSequential(texts, TagsOf(ps), res, value, 0);
    assert TagsOf(ps)[0..] == TagsOf(ps);
  }

  /** In such a document a value on one line stands in the place of its tag. */
  lemma ValueInItsPlace(ps: seq<Piece>, res: seq<Resolution>, tail: string, value: Values, k: nat, v: string)
    requires Resolved(ps, res, value) && AllInPlace(ps, res, tail) && k < |ps| && res[k] == Text(v) && '\n' !in v
    ensures forall t :: t in TagsOf(ps) ==> IsTag(t)
    ensures var texts, done := OnePass(ps, res), Sequential(Laid(ps, SpansOf(ps)) + tail, TagsOf(ps), value);
            done.Ok? && done.value.content == Prefix(ps, texts, k) + v + After(ps, texts, tail, k)
  {
    SequentialIsOnePass(ps, res, tail, value);
    OnePassAt(ps, res, k);
    Around(ps, OnePass(ps, res), tail, k);
  }

  /** A tag of one key, in any text in which it does not stand earlier: its value takes its place. */
  lemma TagBecomesValue(before: string, front: string, dots: string, head: string, rest: string, back: string,
                        after: string, value: Values, v: string)
    requires AllOf(front, ' ') && AllOf(dots, '.') && AllOf(back, ' ')
    requires head != "" && head[0] !in {' ', '"', '`'} && '.' !in head && rest != "" && rest[|rest| - 1] !in {' ', '`'}
    requires var t := "{{" + (front + dots + (head + "." + rest) + back) + "}}";
             '|' !in t && '\n' !in t && FirstHere(before, t)
    requires Lower(head) != "agent" && value(KeyType(head + "." + rest, Lower(head))) == Ok(v)
    requires v != "" && v != "SKIP_REPLACE" && '\n' !in v && !("module." <= v)
    ensures var t := "{{" + (front + dots + (head + "." + rest) + back) + "}}";
            IsTag(t) && Sequential(before + t + after, [t], value) == Ok(Replaced(before + v + after, []))
  {
    var key := head + "." + rest;
    var inner := front + dots + key + back;
    var t := "{{" + inner + "}}";
    var k := KeyType(key, Lower(head));
    assert t[|t| - 2..] == "}}" && Inner(t) == inner;
    AlternativeIs(front, dots, key, back);
    KindIs(head, rest);
    NotEscapedBy(front + dots, key, back);
    var r := TagAnswers(t, [inner], [k], value);
    assert Answers([k], value, 0);
    ReplacedHere(before, t, after, v);
    assert [t] == [t] + [];
    PlainTurn(before + t + after, t, [], Text(v), value, before + v + after);
  }

  lemma NotEscapedBy(front: string, key: string, back: string)
    requires key != "" && (back == "" || back[|back| - 1] == ' ') && key[|key| - 1] != '`'
    ensures (front + key + back)[|front + key + back| - 1] != '`'
  {
  }

  /** Every agent tag has a value and can be replaced in place in the second phase. */
  ghost predicate DelayedInPlace(ps: seq<Piece>, res: seq<Resolution>, value: Values)
    requires |res| == |ps|
  {
    forall k :: 0 <= k < |ps| && res[k].Delayed? ==>
      value(res[k].key).Ok? && FirstHere(Prefix(ps, Final(OnePass(ps, res), res, value), k), ps[k].tag)
  }

  lemma OneDelayed(ps: seq<Piece>, res: seq<Resolution>, tail: string, value: Values, k: nat)
    requires |res| == |ps| && DelayedInPlace(ps, res, value) && k < |ps|
    ensures var texts := OnePass(ps, res);
            var final := Final(texts, res, value);
            Half(ps, final, texts, tail, k + 1) ==
            if res[k].Delayed? then ReplaceFirst(Half(ps, final, texts, tail, k), ps[k].tag, value(res[k].key).value)
            else Half(ps, final, texts, tail, k)
  {
    var texts := OnePass(ps, res);
    var final := Final(texts, res, value);
    HalfNext(ps, final, texts, tail, k);
    OnePassAt(ps, res, k);
    if res[k].Delayed? {
      ReplacedHere(Prefix(ps, final, k), ps[k].tag, After(ps, texts, tail, k), final[k]);
    }
  }

  ghost predicate IsDelayedTurn(texts: seq<string>, tags: seq<string>, res: seq<Resolution>, value: Values, k: nat)
    requires |texts| == |tags| + 1 == |res| + 1 && k < |tags|
  {
    if res[k].Delayed? then
      value(res[k].key).Ok? && texts[k + 1] == ReplaceFirst(texts[k], tags[k], value(res[k].key).value)
    else texts[k + 1] == texts[k]
  }

  /** Each text is what one turn of the second phase makes of the text before. */
  ghost predicate IsDelayedRun(texts: seq<string>, tags: seq<string>, res: seq<Resolution>, value: Values) {
    && |texts| == |tags| + 1 == |res| + 1
    && forall k :: 0 <= k < |tags| ==> IsDelayedTurn(texts, tags, res, value, k)
  }

  lemma DelayedNext(texts: seq<string>, tags: seq<string>, res: seq<Resolution>, value: Values, k: nat)
    requires |texts| == |tags| + 1 == |res| + 1 && k < |tags| && IsDelayedTurn(texts, tags, res, value, k)
    ensures SequentialDelayed(texts[k], DelayedFrom(tags, res, k), value)
            == SequentialDelayed(texts[k + 1], DelayedFrom(tags, res, k + 1), value)
  {
    var rest := DelayedFrom(tags, res, k + 1);
    if res[k].Delayed? {
      var here := DelayedTag(res[k].key, tags[k]);
      assert DelayedFrom(tags, res, k) == [here] + rest && ([here] + rest)[1..] == rest;
    } else {
      assert DelayedFrom(tags, res, k) == [] + rest == rest;
    }
  }

  /** The second phase is the same from every text of the run on. */
  lemma {:induction false} DelayedRunGoesOn(texts: seq<string>, tags: seq<string>, res: seq<Resolution>, value: Values, k: nat)
    requires IsDelayedRun(texts, tags, res, value) && k <= |tags|
    ensures SequentialDelayed(texts[0], DelayedFrom(tags, res, 0), value)
            == SequentialDelayed(texts[k], DelayedFrom(tags, res, k), value)
    decreases k
  {
    if k > 0 {
      DelayedRunGoesOn(texts, tags, res, value, k - 1);
      assert IsDelayedTurn(texts, tags, res, value, k - 1);
      DelayedNext(texts, tags, res, value, k - 1);
    }
  }

  lemma DelayedRunIsSequential(texts: seq<string>, tags: seq<string>, res: seq<Resolution>, value: Values)
    requires IsDelayedRun(texts, tags, res, value)
    ensures SequentialDelayed(texts[0], DelayedFrom(tags, res, 0), value) == Ok(texts[|tags|])
  {
    DelayedRunGoesOn(texts, tags, res, value, |tags|);
    assert DelayedFrom(tags, res, |tags|) == [];
  }

  lemma DelayedIsFinal(ps: seq<Piece>, res: seq<Resolution>, tail: string, value: Values)
    requires |res| == |ps| && DelayedInPlace(ps, res, value)
    ensures SequentialDelayed(Laid(ps, OnePass(ps, res)) + tail, DelayedFrom(TagsOf(ps), res, 0), value)
            == Ok(Laid(ps, Final(OnePass(ps, res), res, value)) + tail)
  {
    var run := AllDelayed(ps, res, tail, value);
    DelayedRunIsSequential(run, TagsOf(ps), res, value);
  }

  lemma AllDelayed(ps: seq<Piece>, res: seq<Resolution>, tail: string, value: Values) returns (run: seq<string>)
    requires |res| == |ps| && DelayedInPlace(ps, res, value)
    ensures IsDelayedRun(run, TagsOf(ps), res, value)
    ensures run[0] == Laid(ps, OnePass(ps, res)) + tail && run[|ps|] == Laid(ps, Final(OnePass(ps, res), res, value)) + tail
  {
    var texts := OnePass(ps, res);
    var final := Final(texts, res, value);
    run := seq(|ps| + 1, k requires 0 <= k <= |ps| => Half(ps, final, texts, tail, k));
    HalfEnds(ps, final, texts, tail);
    forall k | 0 <= k < |ps| ensures IsDelayedTurn(run, TagsOf(ps), res, value, k) {
      OneDelayedTurn(ps, res, tail, value, run, k);
    }
  }

  lemma OneDelayedTurn(ps: seq<Piece>, res: seq<Resolution>, tail: string, value: Values, run: seq<string>, k: nat)
    requires |res| == |ps| && DelayedInPlace(ps, res, value) && k < |ps| && |run| == |ps| + 1
    requires run[k] == Half(ps, Final(OnePass(ps, res), res, value), OnePass(ps, res), tail, k)
    requires run[k + 1] == Half(ps, Final(OnePass(ps, res), res, value), OnePass(ps, res), tail, k + 1)
    ensures IsDelayedTurn(run, TagsOf(ps), res, value, k)
  {
    OneDelayed(ps, res, tail, value, k);
  }

  /** Both phases together put every text, agent values included, in its own place. */
  lemma TwoPhases(ps: seq<Piece>, res: seq<Resolution>, tail: string, value: Values)
    requires Resolved(ps, res, value) && AllInPlace(ps, res, tail) && DelayedInPlace(ps, res, value)
    ensures forall t :: t in TagsOf(ps) ==> IsTag(t)
    ensures var first := Sequential(Laid(ps, SpansOf(ps)) + tail, TagsOf(ps), value);
            && first.Ok?
            && SequentialDelayed(first.value.content, first.value.delayed, value)
               == Ok(Laid(ps, Final(OnePass(ps, res), res, value)) + tail)
  {
    SequentialIsOnePass(ps, res, tail, value);
    DelayedIsFinal(ps, res, tail, value);
  }

  /* ---------- agent values ---------- */

  ghost predicate AgreeButForAgent(a: Values, b: Values) {
    forall k: KeyType :: k.kind != AGENT ==> a(k) == b(k)
  }

  lemma {:induction false} ChoiceIgnoresAgent(keys: seq<KeyType>, a: Values, b: Values)
    requires AgreeButForAgent(a, b)
    ensures Choose(keys, a) == Choose(keys, b)
  {
    if keys != [] {
      ChoiceIgnoresAgent(keys[1..], a, b);
    }
  }

  /** The text that is checksummed does not depend on the agent values, in any document. */
  lemma {:induction false} FirstPhaseIgnoresAgent(content: string, tags: seq<string>, a: Values, b: Values)
    requires AgreeButForAgent(a, b) && forall t :: t in tags ==> IsTag(t)
    ensures Sequential(content, tags, a) == Sequential(content, tags, b)
    decreases |tags|
  {
    if tags != [] {
      var keys := ParseAll(Split(Inner(tags[0]), '|'));
      if keys.Ok? {
        ChoiceIgnoresAgent(keys.value, a, b);
      }
      var r := Resolve(tags[0], a);
      if r.Ok? {
        FirstPhaseIgnoresAgent(Step(content, tags[0], r.value), tags[1..], a, b);
      }
    }
  }

  /** The resolutions when agent keys are replaced in their place like all others. */
  function Immediate(res: seq<Resolution>, value: Values): seq<Resolution> {
    seq(|res|, i requires 0 <= i < |res| =>
      if res[i].Delayed? && value(res[i].key).Ok? then Text(value(res[i].key).value) else res[i])
  }

  /** The indentation that a value of several lines gets. */
  function IndentOf(before: string): string {
    if IsBlank(LastLine(before)) then LastLine(before) else ""
  }

  lemma FitInIs(before: string, v: string)
    ensures FitIn(before, v) == if '\n' in v then Indented(v, IndentOf(before)) else v
  {
    IndentedByNothing(v);
  }

  lemma {:induction false} IndentedGrows(v: string, a: string, b: string)
    requires |a| <= |b|
    ensures |Indented(v, a)| <= |Indented(v, b)|
    ensures |a| < |b| && '\n' in v ==> |Indented(v, a)| < |Indented(v, b)|
  {
    if v != "" {
      IndentedGrows(v[1..], a, b);
    }
  }

  /** A value of several lines shows its indentation. */
  lemma {:induction false} IndentShows(v: string, a: string, b: string)
    requires '\n' in v && Indented(v, a) == Indented(v, b)
    ensures a == b
  {
    if |a| <= |b| {
      IndentedGrows(v, a, b);
    } else {
      IndentedGrows(v, b, a);
    }
    if v[0] == '\n' {
      assert Indented(v, a)[1..1 + |a|] == a && Indented(v, b)[1..1 + |b|] == b;
    } else {
      assert Indented(v, a)[1..] == Indented(v[1..], a) && Indented(v, b)[1..] == Indented(v[1..], b);
      IndentShows(v[1..], a, b);
    }
  }

  ghost predicate AgentValued(res: seq<Resolution>, value: Values) {
    forall k :: 0 <= k < |res| && res[k].Delayed? ==> value(res[k].key).Ok?
  }

  /** The place of one piece in the final text: an agent value of several lines does not stand behind indentation
      only, and a value of several lines is not indented differently because of agent values before it. */
  ghost predicate FitsAt(ps: seq<Piece>, res: seq<Resolution>, value: Values, k: nat)
    requires |res| == |ps| && k < |ps| && AgentValued(res, value)
  {
    var texts := OnePass(ps, res);
    var was, now := Lead(Prefix(ps, texts, k), ps[k]), Lead(Prefix(ps, Final(texts, res, value), k), ps[k]);
    match res[k]
    case Delayed(key) => '\n' in value(key).value ==> IndentOf(now) == ""
    case Text(v) => '\n' in v ==> IndentOf(was) == IndentOf(now)
    case _ => true
  }

  ghost predicate AgentFits(ps: seq<Piece>, res: seq<Resolution>, value: Values)
    requires |res| == |ps| && AgentValued(res, value)
  {
    forall k :: 0 <= k < |ps| ==> FitsAt(ps, res, value, k)
  }

  lemma FitsOne(ps: seq<Piece>, res: seq<Resolution>, value: Values, k: nat)
    requires |res| == |ps| && k < |ps| && AgentValued(res, value)
    ensures var final := Final(OnePass(ps, res), res, value);
            final[k] == Put(Prefix(ps, final, k), ps[k], Immediate(res, value)[k]) <==> FitsAt(ps, res, value, k)
  {
    var texts := OnePass(ps, res);
    var final := Final(texts, res, value);
    var was, now := Lead(Prefix(ps, texts, k), ps[k]), Lead(Prefix(ps, final, k), ps[k]);
    OnePassAt(ps, res, k);
    match res[k] {
      case Delayed(key) =>
        var v := value(key).value;
        FitInIs(now, v);
        IndentedByNothing(v);
        if '\n' in v && FitIn(now, v) == v {
          IndentShows(v, IndentOf(now), "");
        }
      case Text(v) =>
        FitInIs(was, v);
        FitInIs(now, v);
        if '\n' in v && FitIn(was, v) == FitIn(now, v) {
          IndentShows(v, IndentOf(was), IndentOf(now));
        }
      case _ =>
    }
  }

  lemma PutInFront(ps: seq<Piece>, res: seq<Resolution>, texts: seq<string>, n: nat, k: nat)
    requires |res| == |ps| == |texts| && k < n < |ps| && texts[k] == Put(Prefix(ps, texts, k), ps[k], res[k])
    ensures texts[..n][k] == Put(Prefix(ps[..n], texts[..n], k), ps[..n][k], res[..n][k])
  {
    assert ps[..n][..k] == ps[..k] && texts[..n][..k] == texts[..k];
  }

  lemma OnePassEnds(ps: seq<Piece>, res: seq<Resolution>, texts: seq<string>, n: nat)
    requires |res| == |ps| == |texts| == n + 1 && texts[n] == Put(Prefix(ps, texts, n), ps[n], res[n])
    requires OnePass(ps[..n], res[..n]) == texts[..n]
    ensures OnePass(ps, res) == texts
  {
    assert texts == texts[..n] + [texts[n]];
  }

  /** Texts that are put piece by piece are the one-pass texts. */
  lemma {:induction false} OnePassIs(ps: seq<Piece>, res: seq<Resolution>, texts: seq<string>)
    requires |res| == |ps| == |texts|
    requires forall k :: 0 <= k < |ps| ==> texts[k] == Put(Prefix(ps, texts, k), ps[k], res[k])
    ensures OnePass(ps, res) == texts
  {
    if ps != [] {
      var n := |ps| - 1;
      forall k | 0 <= k < n ensures texts[..n][k] == Put(Prefix(ps[..n], texts[..n], k), ps[..n][k], res[..n][k]) {
        PutInFront(ps, res, texts, n, k);
      }
      OnePassIs(ps[..n], res[..n], texts[..n]);
      OnePassEnds(ps, res, texts, n);
    }
  }

  /** Exactly when agent values that are replaced afterwards stand as if they were replaced in their places. */
  lemma ImmediateExactly(ps: seq<Piece>, res: seq<Resolution>, value: Values)
    requires |res| == |ps| && AgentValued(res, value)
    ensures OnePass(ps, Immediate(res, value)) == Final(OnePass(ps, res), res, value) <==> AgentFits(ps, res, value)
  {
    var final, now := Final(OnePass(ps, res), res, value), Immediate(res, value);
    forall k | 0 <= k < |ps| ensures final[k] == Put(Prefix(ps, final, k), ps[k], now[k]) <==> FitsAt(ps, res, value, k) {
      FitsOne(ps, res, value, k);
    }
    if AgentFits(ps, res, value) {
      OnePassIs(ps, now, final);
    } else if OnePass(ps, now) == final {
      forall k | 0 <= k < |ps| ensures FitsAt(ps, res, value, k) {
        OnePassAt(ps, now, k);
      }
    }
  }

  /** Replacing the agent tags afterwards puts their values in their places, and all texts are the same as if they had
      been replaced there with the others exactly if the agent values fit. */
  lemma TwoPhasesAreOne(ps: seq<Piece>, res: seq<Resolution>, tail: string, value: Values)
    requires Resolved(ps, res, value) && AllInPlace(ps, res, tail) && DelayedInPlace(ps, res, value)
    ensures forall t :: t in TagsOf(ps) ==> IsTag(t)
    ensures AgentValued(res, value)
    ensures var first := Sequential(Laid(ps, SpansOf(ps)) + tail, TagsOf(ps), value);
            var inPlace, final := OnePass(ps, Immediate(res, value)), Final(OnePass(ps, res), res, value);
            && first.Ok?
            && SequentialDelayed(first.value.content, first.value.delayed, value) == Ok(Laid(ps, final) + tail)
            && (final == inPlace <==> AgentFits(ps, res, value))
  {
    TwoPhases(ps, res, tail, value);
    ImmediateExactly(ps, res, value);
  }

  /* ---------- agent values on one line ---------- */

  /** A value on one line that is more than blanks. */
  ghost predicate Visible(v: string) {
    '\n' !in v && !IsBlank(v)
  }

  lemma {:induction false} LastLineOf(s: string, t: string)
    ensures LastLine(s + t) == if NextLine(t).None? then LastLine(s) + t else LastLine(t)
    decreases |s|
  {
    NextLineOf(s, t);
    match NextLine(s) {
      case Some(rest) => LastLineOf(rest, t);
      case None =>
        if NextLine(t).None? {
          NextLineOf(s, t);
        }
    }
  }

  lemma BlankJoined(s: string, t: string)
    ensures IsBlank(s + t) <==> IsBlank(s) && IsBlank(t)
  {
    BlanksOf(s, t);
  }

  /** Two beginnings of a text that indent alike. */
  ghost predicate SameIndent(a: string, b: string) {
    IsBlank(LastLine(a)) == IsBlank(LastLine(b)) && (IsBlank(LastLine(a)) ==> LastLine(a) == LastLine(b))
  }

  lemma SameIndentOn(a: string, b: string, t: string, u: string)
    requires SameIndent(a, b)
    requires t == u || (NextLine(t).None? && NextLine(u).None? && !IsBlank(t) && !IsBlank(u))
    ensures SameIndent(a + t, b + u)
  {
    LastLineOf(a, t);
    LastLineOf(b, u);
    BlankJoined(LastLine(a), t);
    BlankJoined(LastLine(b), u);
  }

  ghost predicate AgentVisible(res: seq<Resolution>, value: Values) {
    forall k :: 0 <= k < |res| && res[k].Delayed? ==> value(res[k].key).Ok? && Visible(value(res[k].key).value)
  }

  /** The text of a piece leaves the indentation alike, whether an agent tag or its value stands there. */
  lemma VisibleNext(ps: seq<Piece>, res: seq<Resolution>, value: Values, k: nat, a: string, b: string)
    requires |res| == |ps| && AllTags(ps) && AgentVisible(res, value) && k < |ps| && SameIndent(a, b)
    ensures SameIndent(a + OnePass(ps, res)[k], b + Final(OnePass(ps, res), res, value)[k])
  {
    OnePassAt(ps, res, k);
    NoNewline(ps[k].tag);
    if res[k].Delayed? {
      NoNewline(value(res[k].key).value);
    }
    SameIndentOn(a, b, OnePass(ps, res)[k], Final(OnePass(ps, res), res, value)[k]);
  }

  lemma SameIndentAround(ps: seq<Piece>, texts: seq<string>, final: seq<string>, k: nat)
    requires |texts| == |ps| == |final| && k < |ps| && SameIndent(Laid(ps[..k], texts[..k]), Laid(ps[..k], final[..k]))
    ensures SameIndent(Prefix(ps, texts, k), Prefix(ps, final, k))
  {
    SameIndentOn(Laid(ps[..k], texts[..k]), Laid(ps[..k], final[..k]), ps[k].literal, ps[k].literal);
  }

  lemma {:induction false} VisibleIndent(ps: seq<Piece>, res: seq<Resolution>, value: Values, k: nat)
    requires |res| == |ps| && AllTags(ps) && AgentVisible(res, value) && k <= |ps|
    ensures var texts := OnePass(ps, res);
            SameIndent(Laid(ps[..k], texts[..k]), Laid(ps[..k], Final(texts, res, value)[..k]))
  {
    var texts := OnePass(ps, res);
    var final := Final(texts, res, value);
    if k > 0 {
      var i := k - 1;
      VisibleIndent(ps, res, value, i);
      SameIndentAround(ps, texts, final, i);
      VisibleNext(ps, res, value, i, Prefix(ps, texts, i), Prefix(ps, final, i));
      LaidNext(ps, texts, i);
      LaidNext(ps, final, i);
    }
  }

  /** Agent values of one line that are more than blanks always fit. */
  lemma VisibleFits(ps: seq<Piece>, res: seq<Resolution>, value: Values)
    requires |res| == |ps| && AllTags(ps) && AgentVisible(res, value)
    ensures AgentValued(res, value) && AgentFits(ps, res, value)
  {
    var texts := OnePass(ps, res);
    var final := Final(texts, res, value);
    forall k | 0 <= k < |ps| ensures FitsAt(ps, res, value, k) {
      VisibleIndent(ps, res, value, k);
      SameIndentAround(ps, texts, final, k);
      SameIndentOn(Prefix(ps, texts, k), Prefix(ps, final, k), "\"", "\"");
    }
  }

  /* ---------- documents without stray braces ---------- */

  /** No pair of opening braces, and none that could become one. */
  ghost predicate Gentle(l: string) {
    && (forall i :: 0 <= i < |l| - 1 && l[i] == '{' ==> l[i + 1] != '{')
    && (l != "" ==> l[|l| - 1] != '{')
  }

  ghost predicate Simple(t: string) {
    IsTag(t) && '{' !in Inner(t) && '}' !in Inner(t)
  }

  /** A simple tag between backticks, as a tag. */
  ghost predicate EscapedOnce(t: string) {
    IsTag(t) && var key := Inner(t);
    |key| >= 6 && key[0] == '`' && key[|key| - 1] == '`' && Simple(key[1..|key| - 1])
  }

  ghost predicate Replacing(r: Resolution) {
    r.Unescaped? || r.Text?
  }

  ghost function NewText(r: Resolution): string
    requires Replacing(r)
  {
    if r.Unescaped? then r.text else r.value
  }

  /** The tag behind this literal stands on a line of its own, behind indentation only. */
  ghost predicate OwnLine(literal: string) {
    NextLine(literal).Some? && IsBlank(LastLine(literal))
  }

  ghost predicate CleanAt(p: Piece, r: Resolution) {
    && Gentle(p.literal) && !p.quoted
    && (Simple(p.tag) || EscapedOnce(p.tag))
    && (r.Text? ==> Gentle(r.value) && ('\n' in r.value ==> OwnLine(p.literal)) && !(MODULE_PREFIX <= r.value))
  }

  /** Literals and values without pairs of opening braces, tags escaped at most once, values of several lines on lines
      of their own. */
  ghost predicate Clean(ps: seq<Piece>, res: seq<Resolution>)
    requires |res| == |ps|
  {
    forall k :: 0 <= k < |ps| ==> CleanAt(ps[k], res[k])
  }

  /** The text that is put for a piece of a clean document. */
  ghost function CleanText(p: Piece, r: Resolution): string {
    match r
    case Unescaped(text) => text
    case Text(v) => if '\n' in v then Indented(v, LastLine(p.literal)) else v
    case _ => p.tag
  }

  lemma {:induction false} IndentedGentle(v: string, indent: string)
    requires Gentle(v) && '{' !in indent
    ensures Gentle(Indented(v, indent)) && (Indented(v, indent) == "" <==> v == "")
    ensures v != "" ==> Indented(v, indent)[0] == v[0]
  {
    if v != "" {
      var rest := v[1..];
      assert forall i :: 0 <= i < |rest| ==> rest[i] == v[i + 1];
      IndentedGentle(rest, indent);
    }
  }

  lemma {:induction false} IndentedStarts(v: string, indent: string, start: string)
    requires '\n' !in start && start <= Indented(v, indent)
    ensures start <= v
  {
    if start != "" {
      assert start[0] == Indented(v, indent)[0] && start[0] in start;
      assert Indented(v, indent)[1..] == Indented(v[1..], indent);
      IndentedStarts(v[1..], indent, start[1..]);
    }
  }

  lemma NoPrefixIndented(v: string, indent: string)
    requires !(MODULE_PREFIX <= v)
    ensures !(MODULE_PREFIX <= Indented(v, indent))
  {
    if MODULE_PREFIX <= Indented(v, indent) {
      IndentedStarts(v, indent, MODULE_PREFIX);
    }
  }

  lemma {:induction false} BlankHasNoBrace(s: string)
    requires IsBlank(s)
    ensures '{' !in s
  {
    if s != "" {
      BlankHasNoBrace(s[1..]);
    }
  }

  lemma {:induction false} BlanksAreBlank(s: string)
    ensures IsBlank(Blanks(s))
  {
    if s != "" && (s[0] == ' ' || s[0] == '\t') {
      BlanksAreBlank(s[1..]);
    }
  }

  lemma {:induction false} IndentationIsBlank(s: string, tag: string)
    ensures IsBlank(Indentation(s, tag))
    decreases |s|
  {
    BlanksAreBlank(s);
    if !(tag <= s[|Blanks(s)|..]) && NextLine(s).Some? {
      IndentationIsBlank(NextLine(s).value, tag);
    }
  }

  /** An escaped tag leaves the text of a tag that is replaced later. */
  ghost predicate Collide(ps: seq<Piece>, res: seq<Resolution>, j: nat, k: nat)
    requires |res| == |ps|
  {
    j < k < |ps| && res[j].Unescaped? && Replacing(res[k]) && ps[k].tag == res[j].text
  }

  lemma {:induction false} TrimLeftKeepsLast(s: string, c: char)
    ensures |TrimLeft(s, c)| <= |s| && (s != "" && s[0] == c ==> |TrimLeft(s, c)| < |s|)
    ensures TrimLeft(s, c) != "" ==> TrimLeft(s, c)[|TrimLeft(s, c)| - 1] == s[|s| - 1]
  {
    if s != "" && s[0] == c {
      TrimLeftKeepsLast(s[1..], c);
    }
  }

  lemma {:induction false} TrimRightShortens(s: string, c: char)
    ensures |TrimRight(s, c)| <= |s| && (s != "" && s[|s| - 1] == c ==> |TrimRight(s, c)| < |s|)
  {
    if s != "" && s[|s| - 1] == c {
      TrimRightShortens(s[..|s| - 1], c);
    }
  }

  /** An escaped tag loses exactly one level, unless what stands between the backticks begins or ends with one. */
  lemma OneLevel(t: string, u: string, value: Values)
    requires IsTag(t) && Inner(t) == "`" + u + "`"
    ensures Resolve(t, value) == Ok(Unescaped(u)) <==> u == "" || (u[0] != '`' && u[|u| - 1] != '`')
  {
    var key := Inner(t);
    assert key[1..] == u + "`" && (u + "`")[..|u|] == u;
    assert TrimLeft(key, '`') == TrimLeft(u + "`", '`');
    if u != "" && u[0] == '`' {
      TrimLeftKeepsLast(u + "`", '`');
      TrimRightShortens(TrimLeft(u + "`", '`'), '`');
    } else {
      assert TrimLeft(u + "`", '`') == if u == "" then "" else u + "`";
      assert u != "" ==> TrimRight(u + "`", '`') == TrimRight(u, '`');
      TrimRightShortens(u, '`');
    }
  }

  lemma EscapedLevel(t: string, value: Values)
    requires EscapedOnce(t)
    ensures Resolve(t, value) == Ok(Unescaped(Inner(t)[1..|Inner(t)| - 1]))
  {
    var key := Inner(t);
    var u := key[1..|key| - 1];
    assert u[..2][0] == '{' && u[|u| - 2..][1] == '}' && key == "`" + u + "`";
    OneLevel(t, u, value);
  }

  /** What stands in the place of a tag has no pair of opening braces or is again a simple tag. */
  ghost predicate Harmless(text: string) {
    Gentle(text) || Simple(text)
  }

  lemma UnescapedIsHarmless(p: Piece, r: Resolution, value: Values)
    requires CleanAt(p, r) && Resolve(p.tag, value) == Ok(r) && r.Unescaped?
    ensures Harmless(r.text) && (Simple(p.tag) ==> Gentle(r.text))
  {
    if EscapedOnce(p.tag) {
      EscapedLevel(p.tag, value);
    }
    if Simple(p.tag) {
      Trimmed(Inner(p.tag), '`');
      assert '{' !in Trim(Inner(p.tag), '`');
      assert forall i :: 0 <= i < |r.text| ==> r.text[i] in r.text;
    }
  }

  lemma PutIsHarmless(before: string, p: Piece, r: Resolution, value: Values)
    requires CleanAt(p, r) && Resolve(p.tag, value) == Ok(r)
    ensures Put(before + p.literal, p, r) == CleanText(p, r) && Harmless(CleanText(p, r))
  {
    match r {
      case Unescaped(_) => UnescapedIsHarmless(p, r, value);
      case Text(v) =>
        if '\n' in v {
          LastLineOf(before, p.literal);
          BlankHasNoBrace(LastLine(p.literal));
          IndentedGentle(v, LastLine(p.literal));
        }
      case _ =>
        if EscapedOnce(p.tag) {
          EscapedLevel(p.tag, value);
        }
    }
  }

  lemma PrefixNext(ps: seq<Piece>, texts: seq<string>, k: nat)
    requires 0 < k < |ps| == |texts|
    ensures Prefix(ps, texts, k) == ps[0].literal + texts[0] + Prefix(ps[1..], texts[1..], k - 1)
  {
    assert ps[..k][1..] == ps[1..][..k - 1] && texts[..k][1..] == texts[1..][..k - 1];
  }

  /** Two opening braces stand only where a simple tag begins. */
  lemma {:induction false} Braces(ps: seq<Piece>, texts: seq<string>, k: nat, s: string, i: nat) returns (j: nat)
    requires k < |ps| == |texts| && Prefix(ps, texts, k) <= s && i < |Prefix(ps, texts, k)| && i + 1 < |s|
    requires forall n :: 0 <= n <= k ==> Gentle(ps[n].literal)
    requires forall n :: 0 <= n < k ==> Harmless(texts[n])
    requires s[i] == '{' && s[i + 1] == '{'
    ensures j < k && i == |Prefix(ps, texts, j)| && Simple(texts[j])
    decreases k
  {
    var l := ps[0].literal;
    j := 0;
    if k == 0 {
      NotInLiteral(l, s, i);
    } else {
      var t, rest := texts[0], Prefix(ps[1..], texts[1..], k - 1);
      PrefixNext(ps, texts, k);
      Behind(l, t, rest, s);
      if i < |l| {
        NotInLiteral(l, s, i);
      } else if i < |l| + |t| {
        j := SimpleStart(t, s[|l|..], i - |l|);
      } else {
        j := Braces(ps[1..], texts[1..], k - 1, s[|l| + |t|..], i - |l| - |t|);
        j := j + 1;
        PrefixNext(ps, texts, j);
      }
    }
  }

  lemma Behind(l: string, t: string, rest: string, s: string)
    requires l + t + rest <= s
    ensures l <= s && t <= s[|l|..] && rest <= s[|l| + |t|..]
  {
  }

  lemma NotInLiteral(l: string, s: string, i: nat)
    requires Gentle(l) && l <= s && i < |l| && i + 1 < |s|
    ensures s[i] != '{' || s[i + 1] != '{'
  {
  }

  lemma SimpleStart(t: string, s: string, i: nat) returns (j: nat)
    requires Harmless(t) && t <= s && i < |t| && i + 1 < |s| && s[i] == '{' && s[i + 1] == '{'
    ensures j == 0 == i && Simple(t)
  {
    j := 0;
    if Gentle(t) {
      NotInLiteral(t, s, i);
    }
    assert t[|t| - 2..][0] == '}' && t[|t| - 2..][1] == '}';
    assert forall n :: 2 <= n < |t| - 2 ==> t[n] == Inner(t)[n - 2];
    if i > 0 {
      assert false;
    }
  }

  lemma FourthBrace(t: string)
    requires EscapedOnce(t)
    ensures |t| > 3 && t[3] == '{'
  {
    assert t[3] == Inner(t)[1] == Inner(t)[1..|Inner(t)| - 1][0];
  }

  lemma CloseIsLast(d: string, n: nat)
    requires Simple(d) && 2 <= n < |d| - 2
    ensures d[n] != '}'
  {
    assert d[n] == Inner(d)[n - 2];
  }

  /** A tag that stands where a simple tag stands is that tag. */
  lemma Aligned(s: string, i: nat, d: string, t: string)
    requires At(s, d, i) && At(s, t, i) && Simple(d) && (Simple(t) || EscapedOnce(t))
    ensures t == d
  {
    assert forall n :: 0 <= n < |d| ==> d[n] == s[i + n];
    assert forall n :: 0 <= n < |t| ==> t[n] == s[i + n];
    assert forall n :: 2 <= n < |d| - 2 ==> d[n] == Inner(d)[n - 2];
    assert forall n :: 2 <= n < |t| - 2 ==> t[n] == Inner(t)[n - 2];
    assert d[|d| - 2..][0] == '}' && d[|d| - 2..][1] == '}' && t[|t| - 2..][0] == '}';
    assert d[3] != '{';
    if EscapedOnce(t) {
      FourthBrace(t);
      assert false;
    }
    if |t| < |d| {
      CloseIsLast(d, |t| - 2);
    } else if |d| < |t| {
      CloseIsLast(t, |d| - 2);
    }
  }

  lemma AtPrefix(ps: seq<Piece>, texts: seq<string>, j: nat, k: nat)
    requires j < k < |ps| == |texts|
    ensures |Prefix(ps, texts, j)| + |texts[j]| <= |Prefix(ps, texts, k)|
    ensures At(Prefix(ps, texts, k), texts[j], |Prefix(ps, texts, j)|)
    ensures Prefix(ps, texts, j) <= Prefix(ps, texts, k)
  {
    var rest := PrefixContinues(ps, texts, j, k);
    AtEnd(Prefix(ps, texts, j), texts[j], rest);
  }

  lemma PrefixContinues(ps: seq<Piece>, texts: seq<string>, j: nat, k: nat) returns (rest: string)
    requires j < k < |ps| == |texts|
    ensures Prefix(ps, texts, k) == Prefix(ps, texts, j) + texts[j] + rest
  {
    var between := LaidContinues(ps, texts, j, k);
    rest := between + ps[k].literal;
  }

  lemma LaidContinues(ps: seq<Piece>, texts: seq<string>, j: nat, k: nat) returns (between: string)
    requires j < k < |ps| == |texts|
    ensures Laid(ps[..k], texts[..k]) == Prefix(ps, texts, j) + texts[j] + between
  {
    between := Laid(ps[..k][j + 1..], texts[..k][j + 1..]);
    LaidSplit(ps[..k], texts[..k], j + 1);
    assert ps[..k][..j + 1] == ps[..j + 1] && texts[..k][..j + 1] == texts[..j + 1];
    LaidNext(ps, texts, j);
  }

  lemma AtEnd(front: string, t: string, rest: string)
    ensures At(front + t + rest, t, |front|) && front <= front + t + rest
  {
    assert (front + t + rest)[|front|..|front| + |t|] == t;
  }

  const OPENING := "{{"

  lemma OpeningAt(s: string, i: nat)
    ensures At(s, OPENING, i) <==> i + 1 < |s| && s[i] == '{' && s[i + 1] == '{'
  {
    if i + 1 < |s| {
      assert s[i..i + 2] == [s[i], s[i + 1]];
    }
  }

  lemma TagOpens(s: string, tag: string, i: nat)
    requires IsTag(tag) && At(s, tag, i)
    ensures At(s, OPENING, i) && s[i] == '{'
  {
    assert s[i..i + |tag|][..2] == tag[..2] == OPENING;
    assert s[i..i + 2] == s[i..i + |tag|][..2];
    OpeningAt(s, i);
  }

  ghost predicate Settled(ps: seq<Piece>, texts: seq<string>) {
    && |texts| == |ps|
    && forall k :: 0 <= k < |ps| ==> Gentle(ps[k].literal) && Harmless(texts[k])
  }

  lemma TextStandsEarlier(ps: seq<Piece>, texts: seq<string>, k: nat, j: nat)
    requires j < k < |ps| == |texts| && texts[j] != ""
    ensures !FirstHere(Prefix(ps, texts, k), texts[j])
  {
    var before, i := Prefix(ps, texts, k), |Prefix(ps, texts, j)|;
    AtPrefix(ps, texts, j, k);
    assert (before + texts[j])[i..i + |texts[j]|] == before[i..i + |texts[j]|];
    assert At(before + texts[j], texts[j], i);
  }

  lemma StillAt(before: string, t: string, d: string, i: nat)
    requires At(before, d, i)
    ensures At(before + t, d, i)
  {
    assert (before + t)[i..i + |d|] == before[i..i + |d|];
  }

  lemma EarlierIsText(ps: seq<Piece>, texts: seq<string>, k: nat, t: string, i: nat) returns (j: nat)
    requires Settled(ps, texts) && k < |ps| && (Simple(t) || EscapedOnce(t))
    requires i < |Prefix(ps, texts, k)| && At(Prefix(ps, texts, k) + t, t, i)
    ensures j < k && texts[j] == t
  {
    var s := Prefix(ps, texts, k) + t;
    TagOpens(s, t, i);
    OpeningAt(s, i);
    j := Braces(ps, texts, k, s, i);
    AtPrefix(ps, texts, j, k);
    StillAt(Prefix(ps, texts, k), t, texts[j], i);
    Aligned(s, i, texts[j], t);
  }

  /** A tag stands earlier exactly if it is the text of an earlier piece. */
  lemma StandsEarlier(ps: seq<Piece>, texts: seq<string>, k: nat, t: string)
    requires Settled(ps, texts) && k < |ps| && (Simple(t) || EscapedOnce(t))
    ensures FirstHere(Prefix(ps, texts, k), t) <==> forall j :: 0 <= j < k ==> texts[j] != t
  {
    var before := Prefix(ps, texts, k);
    if j: nat :| j < k && texts[j] == t {
      TextStandsEarlier(ps, texts, k, j);
    } else if i: nat :| i < |before| && At(before + t, t, i) {
      var j := EarlierIsText(ps, texts, k, t, i);
    }
  }

  lemma OnePassSettled(ps: seq<Piece>, res: seq<Resolution>, value: Values)
    requires Resolved(ps, res, value) && Clean(ps, res)
    ensures Settled(ps, OnePass(ps, res))
    ensures forall k :: 0 <= k < |ps| ==> OnePass(ps, res)[k] == CleanText(ps[k], res[k])
  {
    forall k | 0 <= k < |ps|
      ensures Gentle(ps[k].literal) && Harmless(OnePass(ps, res)[k])
      ensures OnePass(ps, res)[k] == CleanText(ps[k], res[k])
    {
      assert CleanAt(ps[k], res[k]);
      OnePassAt(ps, res, k);
      PutIsHarmless(Laid(ps[..k], OnePass(ps, res)[..k]), ps[k], res[k], value);
    }
  }

  lemma TagsAreNotGentle(t: string)
    requires IsTag(t)
    ensures !Gentle(t)
  {
    assert t[..2][0] == '{' && t[..2][1] == '{';
  }

  /** An earlier text is a later tag only if it is what an escaped tag left, or that tag itself. */
  lemma TextIsTag(ps: seq<Piece>, res: seq<Resolution>, value: Values, j: nat, k: nat)
    requires Resolved(ps, res, value) && Clean(ps, res) && j < k < |ps| && Replacing(res[k])
    ensures CleanText(ps[j], res[j]) == ps[k].tag <==> Collide(ps, res, j, k)
  {
    assert CleanAt(ps[j], res[j]);
    TagsAreNotGentle(ps[k].tag);
    assert Resolve(ps[j].tag, value) == Ok(res[j]) && Resolve(ps[k].tag, value) == Ok(res[k]);
    if res[j].Text? {
      PutIsHarmless("", ps[j], res[j], value);
      TextIsGentle(ps[j], res[j]);
    }
  }

  lemma TextIsGentle(p: Piece, r: Resolution)
    requires CleanAt(p, r) && r.Text?
    ensures Gentle(CleanText(p, r)) && (CleanText(p, r) == "" <==> r.value == "")
  {
    if '\n' in r.value {
      BlankHasNoBrace(LastLine(p.literal));
      IndentedGentle(r.value, LastLine(p.literal));
    }
  }

  /** In a clean document only an escaped tag can get in the way of a later one. */
  lemma OnlyEscapesCollide(ps: seq<Piece>, res: seq<Resolution>, value: Values, k: nat)
    requires Resolved(ps, res, value) && Clean(ps, res) && k < |ps| && Replacing(res[k])
    ensures FirstHere(Prefix(ps, OnePass(ps, res), k), ps[k].tag) <==> forall j: nat :: !Collide(ps, res, j, k)
  {
    var texts := OnePass(ps, res);
    OnePassSettled(ps, res, value);
    assert CleanAt(ps[k], res[k]);
    StandsEarlier(ps, texts, k, ps[k].tag);
    forall j: nat | j < k ensures texts[j] == ps[k].tag <==> Collide(ps, res, j, k) {
      TextIsTag(ps, res, value, j, k);
    }
    assert forall j: nat :: Collide(ps, res, j, k) ==> j < k;
  }

  ghost predicate NoCollision(ps: seq<Piece>, res: seq<Resolution>)
    requires |res| == |ps|
  {
    forall j: nat, k: nat :: !Collide(ps, res, j, k)
  }

  /** A clean value is put on its own line and is no reference to a module. */
  lemma CleanValue(before: string, p: Piece, v: string)
    requires CleanAt(p, Text(v))
    ensures '\n' in v ==> IsBlank(LastLine(before + p.literal))
    ensures !(MODULE_PREFIX <= FitIn(before + p.literal, v))
  {
    if '\n' in v {
      LastLineOf(before, p.literal);
      NoPrefixIndented(v, LastLine(p.literal));
    }
  }

  lemma CleanTurn(ps: seq<Piece>, res: seq<Resolution>, tail: string, value: Values, k: nat)
    requires Resolved(ps, res, value) && Clean(ps, res) && k < |ps| && forall j: nat :: !Collide(ps, res, j, k)
    ensures InPlace(Prefix(ps, OnePass(ps, res), k), After(ps, SpansOf(ps), tail, k), ps[k], res[k])
  {
    assert CleanAt(ps[k], res[k]);
    if Replacing(res[k]) {
      OnlyEscapesCollide(ps, res, value, k);
    }
    if res[k].Text? {
      CleanValue(Laid(ps[..k], OnePass(ps, res)[..k]), ps[k], res[k].value);
    }
  }

  /** The text no longer agrees with the one-pass text: it differs where a simple tag should begin. */
  ghost predicate DivergesAt(ps: seq<Piece>, texts: seq<string>, now: string, n: nat)
    requires |texts| == |ps|
  {
    n < |ps| && Simple(texts[n]) && Prefix(ps, texts, n) <= now && !At(now, OPENING, |Prefix(ps, texts, n)|)
  }

  /** Whatever the text is by now, a clean replacement puts a text that begins no tag in place of a simple one. */
  lemma CleanStep(content: string, p: Piece, r: Resolution, value: Values) returns (w: string)
    requires CleanAt(p, r) && Resolve(p.tag, value) == Ok(r) && Replacing(r)
    ensures Step(content, p.tag, r) == ReplaceFirst(content, p.tag, w)
    ensures Simple(p.tag) ==> Gentle(w)
    ensures NewText(r) != "" ==> w != ""
  {
    match r {
      case Unescaped(text) =>
        w := text;
        UnescapedIsHarmless(p, r, value);
      case Text(v) =>
        w := v;
        if '\n' in v {
          var indent := Indentation(content, p.tag);
          w := Indented(v, indent);
          IndentationIsBlank(content, p.tag);
          BlankHasNoBrace(indent);
          IndentedGentle(v, indent);
          NoPrefixIndented(v, indent);
        }
    }
  }

  /** A first occurrence that begins in what agrees with the one-pass text is a simple tag of it. */
  lemma FoundInPrefix(ps: seq<Piece>, texts: seq<string>, now: string, n: nat, t: string, i: nat) returns (j: nat)
    requires Settled(ps, texts) && n < |ps| && Prefix(ps, texts, n) <= now && i < |Prefix(ps, texts, n)|
    requires At(now, t, i) && (Simple(t) || EscapedOnce(t))
    ensures j < n && i == |Prefix(ps, texts, j)| && texts[j] == t && Simple(t) && Prefix(ps, texts, j) <= now
  {
    assert now[i..i + |t|][0] == '{' && now[i..i + |t|][1] == '{' by { assert t[..2][0] == t[..2][1] == '{'; }
    j := Braces(ps, texts, n, now, i);
    AtPrefix(ps, texts, j, n);
    assert now[i..i + |texts[j]|] == Prefix(ps, texts, n)[i..i + |texts[j]|];
    Aligned(now, i, texts[j], t);
  }

  lemma Diverges(ps: seq<Piece>, texts: seq<string>, now: string, tag: string, w: string, j: nat)
    requires |texts| == |ps| && j < |ps| && texts[j] == tag && Simple(tag) && Prefix(ps, texts, j) <= now
    requires Find(now, tag) == Some(|Prefix(ps, texts, j)|) && Gentle(w) && w != ""
    ensures DivergesAt(ps, texts, ReplaceFirst(now, tag, w), j)
  {
    FoundAt(now, tag);
    ReplacedAt(now, tag, w, |Prefix(ps, texts, j)|);
    DivergesHere(Prefix(ps, texts, j), now, tag, w);
  }

  lemma DivergesHere(before: string, now: string, tag: string, w: string)
    requires before <= now && At(now, tag, |before|) && Gentle(w) && w != ""
    ensures var next := now[..|before|] + w + now[|before| + |tag|..]; before <= next && !At(next, OPENING, |before|)
  {
    NoOpening(now[..|before|], w, now[|before| + |tag|..]);
  }

  /** A text without pairs of opening braces does not begin with one, whatever follows. */
  lemma NoOpening(before: string, w: string, after: string)
    requires Gentle(w) && w != ""
    ensures !At(before + w + after, OPENING, |before|)
  {
    var s, n := before + w + after, |before|;
    OpeningAt(s, n);
    assert s[n] == w[0] && (|w| > 1 ==> s[n + 1] == w[1]);
  }

  /** A replacement further on does not open a brace at an earlier place. */
  lemma OpeningBehind(now: string, tag: string, w: string, at: nat, i: nat)
    requires IsTag(tag) && At(now, tag, i) && at < i && !At(now, OPENING, at)
    ensures !At(now[..i] + w + now[i + |tag|..], OPENING, at)
  {
    var next := now[..i] + w + now[i + |tag|..];
    TagOpens(now, tag, i);
    OpeningAt(now, at);
    OpeningAt(next, at);
    assert next[at] == now[at] && (at + 1 < i ==> next[at + 1] == now[at + 1]);
  }

  lemma StillDiverges(ps: seq<Piece>, texts: seq<string>, now: string, n: nat, p: Piece, r: Resolution, value: Values)
    returns (m: nat)
    requires Settled(ps, texts) && DivergesAt(ps, texts, now, n)
    requires CleanAt(p, r) && Resolve(p.tag, value) == Ok(r) && (Replacing(r) ==> NewText(r) != "")
    ensures DivergesAt(ps, texts, Step(now, p.tag, r), m)
  {
    m := n;
    if Replacing(r) {
      var w := CleanStep(now, p, r, value);
      FoundAt(now, p.tag);
      if Find(now, p.tag).Some? {
        var i := Find(now, p.tag).value;
        if i < |Prefix(ps, texts, n)| {
          m := FoundInPrefix(ps, texts, now, n, p.tag, i);
          Diverges(ps, texts, now, p.tag, w, m);
        } else {
          DivergesBehind(ps, texts, now, n, p.tag, w, i);
        }
      }
    }
  }

  lemma DivergesAsBefore(before: string, now: string, tag: string, w: string, i: nat)
    requires IsTag(tag) && At(now, tag, i) && |before| < i && before <= now && !At(now, OPENING, |before|)
    ensures before <= now[..i] + w + now[i + |tag|..] && !At(now[..i] + w + now[i + |tag|..], OPENING, |before|)
  {
    OpeningBehind(now, tag, w, |before|, i);
    assert before <= now[..i];
  }

  lemma DivergesBehind(ps: seq<Piece>, texts: seq<string>, now: string, n: nat, tag: string, w: string, i: nat)
    requires |texts| == |ps| && DivergesAt(ps, texts, now, n) && IsTag(tag)
    requires Find(now, tag) == Some(i) && At(now, tag, i) && i >= |Prefix(ps, texts, n)|
    ensures DivergesAt(ps, texts, ReplaceFirst(now, tag, w), n)
  {
    TagOpens(now, tag, i);
    ReplacedAt(now, tag, w, i);
    DivergesAsBefore(Prefix(ps, texts, n), now, tag, w, i);
  }

  lemma ReplacedAt(s: string, t: string, w: string, i: nat)
    requires Find(s, t) == Some(i) && At(s, t, i)
    ensures ReplaceFirst(s, t, w) == s[..i] + w + s[i + |t|..]
  {
  }

  ghost predicate Solid(res: seq<Resolution>) {
    forall k :: 0 <= k < |res| && Replacing(res[k]) ==> NewText(res[k]) != ""
  }

  lemma TurnDiverges(ps: seq<Piece>, res: seq<Resolution>, value: Values, now: string, n: nat, k: nat) returns (m: nat)
    requires Resolved(ps, res, value) && Clean(ps, res) && Solid(res) && k < |ps|
    requires DivergesAt(ps, OnePass(ps, res), now, n)
    ensures DivergesAt(ps, OnePass(ps, res), Step(now, ps[k].tag, res[k]), m)
  {
    OnePassSettled(ps, res, value);
    assert CleanAt(ps[k], res[k]);
    m := StillDiverges(ps, OnePass(ps, res), now, n, ps[k], res[k], value);
  }

  ghost predicate Keeps(inside: iset<string>, tag: string, r: Resolution) {
    forall now :: now in inside ==> Step(now, tag, r) in inside
  }

  /** What no turn can leave is not left. */
  lemma {:induction false} RunStays(run: seq<string>, tags: seq<string>, res: seq<Resolution>, inside: iset<string>, k: nat)
    requires IsRun(run, tags, res) && k <= |tags| && run[k] in inside
    requires forall j :: 0 <= j < |tags| ==> Keeps(inside, tags[j], res[j])
    ensures run[|tags|] in inside
    decreases |tags| - k
  {
    if k < |tags| {
      assert IsTurn(run, tags, res, k) && Keeps(inside, tags[k], res[k]);
      RunStays(run, tags, res, inside, k + 1);
    }
  }

  ghost predicate HasDiverged(ps: seq<Piece>, texts: seq<string>, now: string)
    requires |texts| == |ps|
  {
    exists n: nat :: DivergesAt(ps, texts, now, n)
  }

  /** All texts that diverge from the one-pass text. */
  ghost function Diverging(ps: seq<Piece>, texts: seq<string>): iset<string>
    requires |texts| == |ps|
  {
    iset now: string | HasDiverged(ps, texts, now)
  }

  lemma DivergingStays(ps: seq<Piece>, res: seq<Resolution>, value: Values, run: seq<string>, k: nat)
    requires Resolved(ps, res, value) && Clean(ps, res) && Solid(res) && IsRun(run, TagsOf(ps), res) && k <= |ps|
    requires run[k] in Diverging(ps, OnePass(ps, res))
    ensures run[|ps|] in Diverging(ps, OnePass(ps, res))
  {
    var inside, tags := Diverging(ps, OnePass(ps, res)), TagsOf(ps);
    forall j | 0 <= j < |ps| ensures Keeps(inside, tags[j], res[j]) {
      forall now | now in inside ensures Step(now, ps[j].tag, res[j]) in inside {
        var n: nat :| DivergesAt(ps, OnePass(ps, res), now, n);
        var m := TurnDiverges(ps, res, value, now, n, j);
      }
    }
    RunStays(run, TagsOf(ps), res, inside, k);
  }

  lemma Around(ps: seq<Piece>, texts: seq<string>, tail: string, k: nat)
    requires |texts| == |ps| && k < |ps|
    ensures Laid(ps, texts) + tail == Prefix(ps, texts, k) + texts[k] + After(ps, texts, tail, k)
  {
    var a, b, l, t := Laid(ps[..k], texts[..k]), Laid(ps[k + 1..], texts[k + 1..]), ps[k].literal, texts[k];
    calc {
      Laid(ps, texts) + tail;
      { LaidSplit(ps, texts, k); LaidNext(ps, texts, k); }
      a + (l + t + b) + tail;
      { JoinedOtherwise(a, l, t, b, tail); }
      a + l + t + (b + tail);
    }
  }

  lemma JoinedOtherwise(a: string, l: string, t: string, b: string, tail: string)
    ensures a + (l + t + b) + tail == a + l + t + (b + tail)
  {
  }

  lemma DivergedDiffers(ps: seq<Piece>, texts: seq<string>, tail: string, now: string, n: nat)
    requires |texts| == |ps| && DivergesAt(ps, texts, now, n)
    ensures now != Laid(ps, texts) + tail
  {
    Around(ps, texts, tail, n);
    OpensThere(Prefix(ps, texts, n), texts[n], After(ps, texts, tail, n));
  }

  lemma OpensThere(before: string, tag: string, after: string)
    requires IsTag(tag)
    ensures At(before + tag + after, OPENING, |before|)
  {
    assert (before + tag + after)[|before|..|before| + 2] == tag[..2];
  }

  lemma {:induction false} RunAgrees(ps: seq<Piece>, res: seq<Resolution>, tail: string, value: Values, run: seq<string>, k: nat)
    requires Resolved(ps, res, value) && Clean(ps, res) && IsRun(run, TagsOf(ps), res) && k <= |ps|
    requires run[0] == Laid(ps, SpansOf(ps)) + tail && forall i: nat, l: nat :: l < k ==> !Collide(ps, res, i, l)
    ensures run[k] == Half(ps, OnePass(ps, res), SpansOf(ps), tail, k)
  {
    if k == 0 {
      HalfEnds(ps, OnePass(ps, res), SpansOf(ps), tail);
    } else {
      RunAgrees(ps, res, tail, value, run, k - 1);
      assert IsTurn(run, TagsOf(ps), res, k - 1);
      CleanTurn(ps, res, tail, value, k - 1);
      HalfNext(ps, OnePass(ps, res), SpansOf(ps), tail, k - 1);
      OnePassAt(ps, res, k - 1);
      StepInPlace(Prefix(ps, OnePass(ps, res), k - 1), ps[k - 1], After(ps, SpansOf(ps), tail, k - 1), res[k - 1]);
    }
  }

  lemma FoundEarlier(ps: seq<Piece>, texts: seq<string>, now: string, j: nat, k: nat) returns (i: nat)
    requires |texts| == |ps| && j < k < |ps| && Prefix(ps, texts, k) <= now && texts[j] != ""
    ensures i < |Prefix(ps, texts, k)| && At(now, texts[j], i) && Find(now, texts[j]) == Some(i)
  {
    var at := |Prefix(ps, texts, j)|;
    AtPrefix(ps, texts, j, k);
    assert now[at..at + |texts[j]|] == Prefix(ps, texts, k)[at..at + |texts[j]|];
    i := FirstAt(now, texts[j], at);
  }

  /** The first collision makes the text diverge. */
  lemma CollisionDiverges(ps: seq<Piece>, res: seq<Resolution>, tail: string, value: Values, j: nat, k: nat) returns (m: nat)
    requires Resolved(ps, res, value) && Clean(ps, res) && Solid(res) && Collide(ps, res, j, k)
    ensures DivergesAt(ps, OnePass(ps, res), Step(Half(ps, OnePass(ps, res), SpansOf(ps), tail, k), ps[k].tag, res[k]), m)
  {
    var texts := OnePass(ps, res);
    var now := Half(ps, texts, SpansOf(ps), tail, k);
    OnePassSettled(ps, res, value);
    HalfNext(ps, texts, SpansOf(ps), tail, k);
    assert CleanAt(ps[k], res[k]) && texts[j] == ps[k].tag;
    var i := FoundEarlier(ps, texts, now, j, k);
    m := FoundInPrefix(ps, texts, now, k, ps[k].tag, i);
    var w := CleanStep(now, ps[k], res[k], value);
    Diverges(ps, texts, now, ps[k].tag, w, m);
  }

  lemma {:induction false} FirstCollision(ps: seq<Piece>, res: seq<Resolution>, j: nat, k: nat) returns (a: nat, b: nat)
    requires |res| == |ps| && Collide(ps, res, j, k)
    ensures Collide(ps, res, a, b) && forall i: nat, l: nat :: l < b ==> !Collide(ps, res, i, l)
    decreases k
  {
    a, b := j, k;
    if i: nat, l: nat :| l < k && Collide(ps, res, i, l) {
      a, b := FirstCollision(ps, res, i, l);
    }
  }

  /** In a clean document with values, sequential replacement is positional exactly if no escaped tag leaves the
      text of a tag that is replaced after it. */
  lemma CleanExactly(ps: seq<Piece>, res: seq<Resolution>, tail: string, value: Values)
    requires Resolved(ps, res, value) && Clean(ps, res) && Solid(res)
    ensures forall t :: t in TagsOf(ps) ==> IsTag(t)
    ensures var done := Sequential(Laid(ps, SpansOf(ps)) + tail, TagsOf(ps), value);
            done.Ok? && (done.value.content == Laid(ps, OnePass(ps, res)) + tail <==> NoCollision(ps, res))
  {
    var texts, tags := OnePass(ps, res), TagsOf(ps);
    var run := RunOf(Laid(ps, SpansOf(ps)) + tail, tags, res);
    RunIsSequential(run, tags, res, value, 0);
    assert tags[0..] == tags;
    if NoCollision(ps, res) {
      RunAgrees(ps, res, tail, value, run, |ps|);
      HalfEnds(ps, texts, SpansOf(ps), tail);
    } else {
      var j: nat, k: nat :| Collide(ps, res, j, k);
      j, k := FirstCollision(ps, res, j, k);
      RunAgrees(ps, res, tail, value, run, k);
      var m := CollisionDiverges(ps, res, tail, value, j, k);
      assert IsTurn(run, tags, res, k);
      DivergingStays(ps, res, value, run, k + 1);
      m :| DivergesAt(ps, texts, run[|ps|], m);
      DivergedDiffers(ps, texts, tail, run[|ps|], m);
    }
  }

  /** An escaped tag leaves the text of some later tag. */
  ghost predicate LeavesTag(ps: seq<Piece>, res: seq<Resolution>, j: nat, k: nat)
    requires |res| == |ps|
  {
    j < k < |ps| && res[j].Unescaped? && ps[k].tag == res[j].text
  }

  ghost predicate DelayedGentle(res: seq<Resolution>, value: Values) {
    forall k :: 0 <= k < |res| && res[k].Delayed? ==> value(res[k].key).Ok? && Gentle(value(res[k].key).value)
  }

  lemma FinalSettled(ps: seq<Piece>, res: seq<Resolution>, value: Values)
    requires Resolved(ps, res, value) && Clean(ps, res) && DelayedGentle(res, value)
    ensures Settled(ps, Final(OnePass(ps, res), res, value))
  {
    OnePassSettled(ps, res, value);
  }

  lemma FinalIsNoTag(ps: seq<Piece>, res: seq<Resolution>, value: Values, j: nat, k: nat)
    requires Resolved(ps, res, value) && Clean(ps, res) && DelayedGentle(res, value)
    requires j < k < |ps| && res[k].Delayed? && !LeavesTag(ps, res, j, k)
    ensures (if res[j].Delayed? then value(res[j].key).value else CleanText(ps[j], res[j])) != ps[k].tag
  {
    assert CleanAt(ps[j], res[j]);
    TagsAreNotGentle(ps[k].tag);
    assert Resolve(ps[j].tag, value) == Ok(res[j]) && Resolve(ps[k].tag, value) == Ok(res[k]);
    if res[j].Text? {
      TextIsGentle(ps[j], res[j]);
    }
  }

  lemma CleanDelayed(ps: seq<Piece>, res: seq<Resolution>, value: Values, k: nat)
    requires Resolved(ps, res, value) && Clean(ps, res) && DelayedGentle(res, value)
    requires k < |ps| && res[k].Delayed? && forall j: nat :: !LeavesTag(ps, res, j, k)
    ensures FirstHere(Prefix(ps, Final(OnePass(ps, res), res, value), k), ps[k].tag)
  {
    var final := Final(OnePass(ps, res), res, value);
    FinalSettled(ps, res, value);
    assert CleanAt(ps[k], res[k]);
    forall j: nat | j < k ensures final[j] != ps[k].tag {
      OnePassSettled(ps, res, value);
      FinalIsNoTag(ps, res, value, j, k);
    }
    StandsEarlier(ps, final, k, ps[k].tag);
  }

  /** In a clean document both phases work in place, unless an escaped tag leaves the text of any later tag. */
  lemma CleanTwoPhases(ps: seq<Piece>, res: seq<Resolution>, tail: string, value: Values)
    requires Resolved(ps, res, value) && Clean(ps, res) && DelayedGentle(res, value)
    requires forall j: nat, k: nat :: !LeavesTag(ps, res, j, k)
    ensures AllInPlace(ps, res, tail) && DelayedInPlace(ps, res, value)
  {
    forall k | 0 <= k < |ps|
      ensures InPlace(Prefix(ps, OnePass(ps, res), k), After(ps, SpansOf(ps), tail, k), ps[k], res[k])
    {
      forall j: nat ensures !Collide(ps, res, j, k) {
        assert !LeavesTag(ps, res, j, k);
      }
      CleanTurn(ps, res, tail, value, k);
    }
    forall k | 0 <= k < |ps| && res[k].Delayed?
      ensures FirstHere(Prefix(ps, Final(OnePass(ps, res), res, value), k), ps[k].tag)
    {
      CleanDelayed(ps, res, value, k);
    }
  }

  /** The text of a tag between backticks, as a tag. */
  function Escape(t: string): string { "{{`" + t + "`}}" }

  lemma EscapeIsEscaped(t: string)
    requires Simple(t)
    ensures EscapedOnce(Escape(t)) && Inner(Escape(t))[1..|Inner(Escape(t))| - 1] == t
  {
    assert Inner(Escape(t)) == "`" + t + "`";
  }

  lemma ReplacedAtStart(t: string, after: string, text: string)
    ensures ReplaceFirst(t + after, t, text) == text + after
  {
    assert (t + after)[|t|..] == after;
  }

  lemma NoIndentation(t: string, after: string)
    requires IsTag(t)
    ensures Indentation(t + after, t) == ""
  {
    assert t[..2][0] == '{';
    assert Blanks(t + after) == "" && (t + after)[0..] == t + after && t <= t + after;
  }

  lemma ValueAtStart(t: string, v: string)
    requires IsTag(t) && (MODULE_PREFIX <= v ==> Find(v + t, Quoted(v)) == None)
    ensures Step(t + t, t, Text(v)) == v + t
  {
    NoIndentation(t, t);
    IndentedByNothing(v);
    ReplacedAtStart(t, t, v);
  }

  lemma TwiceIsHitOnce(t: string, v: string, value: Values)
    requires IsTag(t) && Resolve(t, value) == Ok(Text(v)) && (MODULE_PREFIX <= v ==> Find(v + t, Quoted(v)) == None)
    ensures Sequential(t + t, [t], value) == Ok(Replaced(v + t, []))
  {
    ValueAtStart(t, v);
    assert [t] + [] == [t];
    PlainTurn(t + t, t, [], Text(v), value, v + t);
  }

  lemma LevelIsLost(t: string, value: Values)
    requires Simple(t)
    ensures IsTag(Escape(t)) && Resolve(Escape(t), value) == Ok(Unescaped(t))
    ensures Step(Escape(t) + t, Escape(t), Unescaped(t)) == t + t
  {
    EscapeIsEscaped(t);
    EscapedLevel(Escape(t), value);
    ReplacedAtStart(Escape(t), t, t);
  }

  /** Every simple tag that follows its own escaped form is left in place; the unescaped text is replaced instead. */
  lemma EscapedTextIsHit(t: string, v: string, value: Values)
    requires Simple(t) && Resolve(t, value) == Ok(Text(v)) && (MODULE_PREFIX <= v ==> Find(v + t, Quoted(v)) == None)
    ensures IsTag(Escape(t)) && Sequential(Escape(t) + t, [Escape(t), t], value) == Ok(Replaced(v + t, []))
  {
    TwiceIsHitOnce(t, v, value);
    LevelIsLost(t, value);
    assert [Escape(t)] + [t] == [Escape(t), t];
    PlainTurn(Escape(t) + t, Escape(t), [t], Unescaped(t), value, v + t);
  }
}
