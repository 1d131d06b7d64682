/**
 The text of a `.env` file as lines, and the meaning operator/src/util/env.ts
 gives to it. Line terminators other than "\n" are outside the model: a `Text`
 holds no carriage return and no Unicode line or paragraph separator.
 */
module Dotenv {
  import opened Wrappers

  predicate Terminator(c: char) {
    c == '\n' || c == '\r' || c == '\U{2028}' || c == '\U{2029}'
  }

  ghost predicate Clean(line: string) {
    forall i :: 0 <= i < |line| ==> !Terminator(line[i])
  }

  ghost predicate CleanLines(lines: seq<string>) {
    |lines| > 0 && forall i :: 0 <= i < |lines| ==> Clean(lines[i])
  }

  predicate IsText(t: string) {
    forall i :: 0 <= i < |t| ==> t[i] == '\n' || !Terminator(t[i])
  }

  type Text = t: string | IsText(t) witness ""

  // ---------- split("\n") and join("\n") ----------

  function Split(t: string): (lines: seq<string>)
    ensures |lines| > 0
  {
    if t == "" then [""]
    else
      var rest := Split(t[1..]);
      if t[0] == '\n' then [""] + rest else [[t[0]] + rest[0]] + rest[1..]
  }

  function Join(lines: seq<string>): string {
    if lines == [] then ""
    else if |lines| == 1 then lines[0]
    else lines[0] + "\n" + Join(lines[1..])
  }

  lemma {:induction false} JoinSplit(t: string)
    ensures Join(Split(t)) == t
  {
    if t == "" {
    } else {
      JoinSplit(t[1..]);
      var rest := Split(t[1..]);
      if t[0] == '\n' {
        assert ([""] + rest)[1..] == rest;
      } else {
        var head := [t[0]] + rest[0];
        assert ([head] + rest[1..])[1..] == rest[1..];
      }
    }
  }

  lemma {:induction false} SplitClean(t: Text)
    ensures CleanLines(Split(t))
  {
    if t == "" {
    } else {
      SplitClean(t[1..]);
    }
  }

  lemma {:induction false} SplitJoin(lines: seq<string>)
    requires CleanLines(lines)
    ensures Split(Join(lines)) == lines
  {
    var head := lines[0];
    if |lines| == 1 {
      SplitPrefix(head, "");
      assert head + "" == head;
    } else {
      SplitJoin(lines[1..]);
      SplitPrefix(head, "\n" + Join(lines[1..]));
      assert head + "\n" + Join(lines[1..]) == head + ("\n" + Join(lines[1..]));
      assert ("\n" + Join(lines[1..]))[1..] == Join(lines[1..]);
      assert Split("\n" + Join(lines[1..])) == [""] + lines[1..];
      assert ([""] + lines[1..])[1..] == lines[1..] && head + "" == head;
    }
  }

  lemma {:induction false} SplitPrefix(head: string, t: string)
    requires Clean(head)
    ensures Split(head + t) == [head + Split(t)[0]] + Split(t)[1..]
  {
    if head == "" {
      assert head + t == t && head + Split(t)[0] == Split(t)[0];
    } else {
      SplitPrefix(head[1..], t);
      assert (head + t)[1..] == head[1..] + t;
      assert [head[0]] + (head[1..] + Split(t)[0]) == head + Split(t)[0];
    }
  }

  // ---------- parseDotenv ----------

  /** `\s` of a JavaScript regular expression. */
  predicate Space(c: char) {
    || '\t' <= c <= '\r' || c == ' ' || c == '\U{00a0}' || c == '\U{1680}'
    || '\U{2000}' <= c <= '\U{200a}' || c == '\U{2028}' || c == '\U{2029}'
    || c == '\U{202f}' || c == '\U{205f}' || c == '\U{3000}' || c == '\U{feff}'
  }

  function TrimStart(s: string): string {
    if s != "" && Space(s[0]) then TrimStart(s[1..]) else s
  }

  function TrimEnd(s: string): string {
    if s != "" && Space(s[|s| - 1]) then TrimEnd(s[..|s| - 1]) else s
  }

  predicate IdentStart(c: char) {
    'A' <= c <= 'Z' || 'a' <= c <= 'z' || c == '_'
  }

  predicate IdentPart(c: char) {
    IdentStart(c) || '0' <= c <= '9'
  }

  /** The longest prefix of identifier characters. */
  function IdentPrefix(s: string): (n: nat)
    ensures n <= |s|
  {
    if s != "" && IdentPart(s[0]) then 1 + IdentPrefix(s[1..]) else 0
  }

  /** `val.replace(/\s+#.*$/, "")`: cut at the first run of blanks before a hash. */
  function CutComment(s: string): string {
    if s == "" then ""
    else if Space(s[0]) && "#" <= TrimStart(s) then ""
    else [s[0]] + CutComment(s[1..])
  }

  function Value(raw: string): string {
    if raw != "" && raw[0] == raw[|raw| - 1] && (raw[0] == '"' || raw[0] == '\'') then
      if |raw| < 2 then "" else raw[1..|raw| - 1]
    else
      TrimEnd(CutComment(raw))
  }

  /** The assignment one raw line makes, if any. */
  function ParseLine(rawLine: string): Option<(string, string)> {
    var line := TrimEnd(TrimStart(rawLine));
    if line == "" || line[0] == '#' || !IdentStart(line[0]) then None
    else
      var n := IdentPrefix(line);
      var rest := TrimStart(line[n..]);
      if "=" <= rest then Some((line[..n], Value(TrimStart(rest[1..])))) else None
  }

  /** `env[key] = val` on an object literal, where `__proto__` creates no entry. */
  function Assign(env: map<string, string>, binding: Option<(string, string)>): map<string, string> {
    if binding.None? || binding.value.0 == "__proto__" then env
    else env[binding.value.0 := binding.value.1]
  }

  function Meaning(lines: seq<string>): map<string, string> {
    if lines == [] then map[]
    else Assign(Meaning(lines[..|lines| - 1]), ParseLine(lines[|lines| - 1]))
  }

  /** `parseDotenv`. */
  method ParseDotenv(text: Text) returns (env: map<string, string>)
    ensures env == Meaning(Split(text))
  {
    env := map[];
    var lines := Split(text);
    for i := 0 to |lines|
      invariant env == Meaning(lines[..i])
    {
      assert lines[..i + 1][..i] == lines[..i];
      env := Assign(env, ParseLine(lines[i]));
    }
    assert lines[..|lines|] == lines;
  }

  // ---------- all the values given to one key, in order ----------

  function KeyOf(line: string): Option<string> {
    if ParseLine(line).Some? then Some(ParseLine(line).value.0) else None
  }

  /** The value a line gives to the key, if it does. */
  function Own(line: string, key: string): seq<string> {
    if KeyOf(line) == Some(key) then [ParseLine(line).value.1] else []
  }

  function Definitions(lines: seq<string>, key: string): seq<string> {
    if lines == [] then []
    else Own(lines[0], key) + Definitions(lines[1..], key)
  }

  lemma Regroup(x: seq<string>, y: seq<string>, z: seq<string>)
    ensures x + (y + z) == (x + y) + z
  {
  }

  /** What each line contributes, in order. */
  function Gather(lines: seq<string>, f: string -> seq<string>): seq<string> {
    if lines == [] then [] else f(lines[0]) + Gather(lines[1..], f)
  }

  lemma {:induction false} GatherOwn(lines: seq<string>, key: string, f: string -> seq<string>)
    requires forall i :: 0 <= i < |lines| ==> f(lines[i]) == Own(lines[i], key)
    ensures Gather(lines, f) == Definitions(lines, key)
  {
    if lines == [] {
    } else {
      GatherOwn(lines[1..], key, f);
    }
  }

  lemma {:induction false} GatherAppend(a: seq<string>, b: seq<string>, f: string -> seq<string>)
    ensures Gather(a + b, f) == Gather(a, f) + Gather(b, f)
  {
    if a == [] {
      assert a + b == b;
    } else {
      GatherAppend(a[1..], b, f);
      assert (a + b)[1..] == a[1..] + b;
      Regroup(f(a[0]), Gather(a[1..], f), Gather(b, f));
    }
  }

  lemma DefinitionsAppend(a: seq<string>, b: seq<string>, key: string)
    ensures Definitions(a + b, key) == Definitions(a, key) + Definitions(b, key)
  {
    var f := (l: string) => Own(l, key);
    GatherAppend(a, b, f);
    GatherOwn(a, key, f);
    GatherOwn(b, key, f);
    GatherOwn(a + b, key, f);
  }

  /** The parser keeps the last of them. */
  lemma {:induction false} MeaningIsLast(lines: seq<string>, key: string)
    requires key != "__proto__"
    ensures key in Meaning(lines) <==> Definitions(lines, key) != []
    ensures key in Meaning(lines) ==>
              var d := Definitions(lines, key); Meaning(lines)[key] == d[|d| - 1]
  {
    if lines == [] {
    } else {
      MeaningIsLast(lines[..|lines| - 1], key);
      LastAssignment(lines, key);
    }
  }

  /** What one more line does to the meaning and to the definitions. */
  lemma LastAssignment(lines: seq<string>, key: string)
    requires lines != [] && key != "__proto__"
    ensures var init := lines[..|lines| - 1];
            var before, after, values, own := Meaning(init), Meaning(lines), Definitions(init, key), Own(lines[|lines| - 1], key);
            && Definitions(lines, key) == values + own
            && |own| <= 1
            && (key in after <==> own != [] || key in before)
            && (key in after ==> after[key] == if own != [] then own[0] else before[key])
  {
    var init, last := lines[..|lines| - 1], lines[|lines| - 1];
    assert lines == init + [last];
    DefinitionsAppend(init, [last], key);
    DefinitionsSingle(last, key);
    AssignOwn(Meaning(init), last, key);
  }

  lemma DefinitionsSingle(line: string, key: string)
    ensures Definitions([line], key) == Own(line, key)
  {
    assert [line][1..] == [];
  }

  /** An assignment changes the value of the key its line gives a value to. */
  lemma AssignOwn(env: map<string, string>, line: string, key: string)
    requires key != "__proto__"
    ensures var after, own := Assign(env, ParseLine(line)), Own(line, key);
            && |own| <= 1
            && (key in after <==> own != [] || key in env)
            && (key in after ==> after[key] == if own != [] then own[0] else env[key])
  {
  }

  /** A line that starts with `KEY=` at column 0 defines KEY. */
  lemma KeyAtColumnZero(line: string, key: string)
    requires key + "=" <= line
    requires key != "" && IdentStart(key[0]) && forall i :: 0 <= i < |key| ==> IdentPart(key[i])
    ensures KeyOf(line) == Some(key)
  {
    assert line[0] == key[0] && TrimStart(line) == line;
    TrimEndKeeps(line, |key| + 1);
    var trimmed := TrimEnd(line);
    assert trimmed[..|key|] == key && trimmed[|key|] == '=';
    IdentPrefixOf(trimmed, |key|);
    assert TrimStart(trimmed[|key|..]) == trimmed[|key|..];
  }

  lemma {:induction false} TrimEndKeeps(s: string, n: nat)
    requires 0 < n <= |s| && !Space(s[n - 1])
    ensures n <= |TrimEnd(s)| && TrimEnd(s) <= s
    decreases |s|
  {
    if Space(s[|s| - 1]) {
      TrimEndKeeps(s[..|s| - 1], n);
    }
  }

  lemma {:induction false} IdentPrefixOf(s: string, n: nat)
    requires n < |s| && !IdentPart(s[n]) && forall i :: 0 <= i < n ==> IdentPart(s[i])
    ensures IdentPrefix(s) == n
  {
    if n == 0 {
    } else {
      IdentPrefixOf(s[1..], n - 1);
    }
  }

  /** Comment lines and empty lines define nothing. */
  lemma NothingDefined(line: string)
    requires line == "" || line[0] == '#'
    ensures KeyOf(line) == None
  {
    if line != "" {
      assert TrimStart(line) == line;
      TrimEndKeeps(line, 1);
    }
  }

  // ---------- the forms an assignment can take ----------

  /** What the parser makes of the text after a plain front: the comment and trailing blanks cut. */
  function Rest(text: string): string {
    TrimEnd(CutComment(TrimEnd(text)))
  }

  /** Text that is read as it stands: no blank at its ends, no quote first, no hash after a blank. */
  predicate PlainFront(front: string) {
    && front != "" && front[0] != '"' && front[0] != '\'' && !Space(front[0]) && Uncut(front)
  }

  predicate Uncut(s: string) {
    && (s != "" ==> !Space(s[|s| - 1]))
    && forall i :: 0 < i < |s| && s[i] == '#' ==> !Space(s[i - 1])
  }

  lemma PlainValueOf(line: string, key: string, front: string, rest: string)
    requires key != "" && IdentStart(key[0]) && forall i :: 0 <= i < |key| ==> IdentPart(key[i])
    requires line == key + "=" + front + rest && PlainFront(front)
    ensures ParseLine(line) == Some((key, front + Rest(rest)))
  {
    assert TrimStart(line) == line;
    TrimEndAfter(key + "=" + front, rest);
    var value := front + TrimEnd(rest);
    AssignmentSplit(TrimEnd(line), key, value);
    ValueAfter(front, TrimEnd(rest));
  }

  lemma AssignmentSplit(trimmed: string, key: string, value: string)
    requires key != "" && IdentStart(key[0]) && forall i :: 0 <= i < |key| ==> IdentPart(key[i])
    requires trimmed == key + "=" + value
    ensures IdentPrefix(trimmed) == |key| && trimmed[..|key|] == key
    ensures var rest := TrimStart(trimmed[|key|..]); "=" <= rest && rest[1..] == value
  {
    assert trimmed[..|key|] == key && trimmed[|key|] == '=';
    IdentPrefixOf(trimmed, |key|);
    assert trimmed[|key|..] == "=" + value && ("=" + value)[1..] == value;
    assert TrimStart("=" + value) == "=" + value;
  }

  lemma ValueAfter(front: string, rest: string)
    requires PlainFront(front)
    ensures TrimStart(front + rest) == front + rest
    ensures Value(front + rest) == front + TrimEnd(CutComment(rest))
  {
    CutAfter(front, rest);
    TrimEndAfter(front, CutComment(rest));
  }

  lemma {:induction false} TrimEndAfter(front: string, s: string)
    requires front != "" && !Space(front[|front| - 1])
    ensures TrimEnd(front + s) == front + TrimEnd(s)
    decreases |s|
  {
    if s == "" {
      assert front + s == front;
    } else if Space(s[|s| - 1]) {
      assert (front + s)[..|front + s| - 1] == front + s[..|s| - 1];
      TrimEndAfter(front, s[..|s| - 1]);
    }
  }

  lemma {:induction false} CutAfter(front: string, s: string)
    requires Uncut(front)
    ensures CutComment(front + s) == front + CutComment(s)
  {
    if front == "" {
      assert front + s == s;
    } else {
      assert (front + s)[1..] == front[1..] + s;
      CutAfter(front[1..], s);
      if Space(front[0]) {
        NoHashNext(front, s);
      }
    }
  }

  lemma {:induction false} NoHashNext(front: string, s: string)
    requires Uncut(front) && front != "" && Space(front[0])
    ensures !("#" <= TrimStart(front + s))
  {
    assert (front + s)[1..] == front[1..] + s;
    if Space(front[1]) {
      NoHashNext(front[1..], s);
    } else {
      assert TrimStart(front[1..] + s) == front[1..] + s;
    }
  }

  ghost predicate Blanks(s: string) {
    forall i :: 0 <= i < |s| ==> Space(s[i])
  }

  ghost predicate IsKey(key: string) {
    key != "" && IdentStart(key[0]) && forall i :: 0 <= i < |key| ==> IdentPart(key[i])
  }

  /** The blanks are the white space and line terminators of ECMAScript, the byte order mark among them. */
  lemma BlankCharacters(c: char, ascii: string, other: string)
    requires ascii == "\t\n\U{B}\U{C}\r " && other == "\U{A0}\U{1680}\U{2028}\U{2029}\U{202F}\U{205F}\U{3000}\U{FEFF}"
    ensures Space(c) <==> c in ascii || c in other || '\U{2000}' <= c <= '\U{200A}'
  {
    assert '\t' <= c <= '\r' ==> c in ascii;
  }

  /** TrimStart drops the blanks at the start and nothing else. */
  lemma {:induction false} TrimStartAfter(b: string, s: string)
    requires Blanks(b) && (s == "" || !Space(s[0]))
    ensures TrimStart(b + s) == s
  {
    if b == "" {
      assert b + s == s;
    } else {
      assert (b + s)[1..] == b[1..] + s;
      TrimStartAfter(b[1..], s);
    }
  }

  lemma {:induction false} TrimEndBefore(s: string, b: string)
    requires Blanks(b) && (s == "" || !Space(s[|s| - 1]))
    ensures TrimEnd(s + b) == s
    decreases |b|
  {
    if b == "" {
      assert s + b == s;
    } else {
      assert (s + b)[..|s + b| - 1] == s + b[..|b| - 1];
      TrimEndBefore(s, b[..|b| - 1]);
    }
  }

  /** A comment takes the blanks before its hash with it. */
  lemma CommentCut(front: string, b: string, comment: string)
    requires PlainFront(front) && Blanks(b) && b != ""
    ensures Rest(b + "#" + comment) == "" && Rest(b) == ""
  {
    var c := TrimEnd(b + "#" + comment);
    assert (b + "#" + comment)[|b|] == '#' && "" + b == b;
    TrimEndBefore("", b);
    TrimEndKeeps(b + "#" + comment, |b| + 1);
    assert c == b + c[|b|..] && c[|b|] == '#';
    TrimStartAfter(b, c[|b|..]);
  }

  /** What remains of a line when the blanks around the equals sign and at both ends are dropped. */
  lemma ParseSplit(lead: string, key: string, b1: string, b2: string, v: string, tail: string)
    requires Blanks(lead) && IsKey(key) && Blanks(b1) && Blanks(b2) && Blanks(tail)
    requires v != "" && !Space(v[0]) && !Space(v[|v| - 1])
    ensures ParseLine(lead + key + b1 + "=" + b2 + v + tail) == Some((key, Value(v)))
  {
    var body := key + (b1 + ("=" + (b2 + v)));
    assert lead + key + b1 + "=" + b2 + v + tail == lead + (body + tail);
    TrimStartAfter(lead, body + tail);
    assert body[|body| - 1] == v[|v| - 1];
    TrimEndBefore(body, tail);
    KeyAndRest(body, key, b1, "=" + (b2 + v));
    assert ("=" + (b2 + v))[1..] == b2 + v;
    TrimStartAfter(b2, v);
  }

  lemma KeyAndRest(body: string, key: string, b1: string, rest: string)
    requires IsKey(key) && Blanks(b1) && rest != "" && rest[0] == '=' && body == key + (b1 + rest)
    ensures IdentPrefix(body) == |key| && body[..|key|] == key && TrimStart(body[|key|..]) == rest
  {
    assert body[|key|..] == b1 + rest && !IdentPart((b1 + rest)[0]);
    IdentPrefixOf(body, |key|);
    TrimStartAfter(b1, rest);
  }

  lemma {:induction false} TrimEndSplit(s: string) returns (tail: string)
    ensures Blanks(tail) && s == TrimEnd(s) + tail
    ensures TrimEnd(s) == "" || !Space(TrimEnd(s)[|TrimEnd(s)| - 1])
    decreases |s|
  {
    if s != "" && Space(s[|s| - 1]) {
      tail := TrimEndSplit(s[..|s| - 1]);
      tail := tail + [s[|s| - 1]];
    } else {
      tail := "";
    }
  }

  lemma CommentForm(lead: string, key: string, b1: string, b2: string, front: string, x: string)
    requires Blanks(lead) && IsKey(key) && Blanks(b1) && Blanks(b2) && PlainFront(front) && Rest(x) == ""
    ensures ParseLine(lead + key + b1 + "=" + b2 + (front + x)) == Some((key, front))
  {
    var tail := TrimEndSplit(x);
    var head, t := lead + key + b1 + "=" + b2, TrimEnd(x);
    assert head + (front + x) == head + (front + t) + tail;
    ParseSplit(lead, key, b1, b2, front + t, tail);
    ValueAfter(front, t);
    assert front + "" == front;
  }

  /**
   The forms of an assignment, with any blanks at its ends and around the equals
   sign. A quoted value is what stands between the quotes, whatever it is; an
   unquoted one is itself, blanks and hashes inside it included, up to the first
   hash after a blank.
   */
  lemma AssignmentForms(lead: string, key: string, b1: string, b2: string, q: char, d: string,
                        front: string, b3: string, comment: string)
    requires Blanks(lead) && IsKey(key) && Blanks(b1) && Blanks(b2) && Blanks(b3) && b3 != ""
    requires (q == '"' || q == '\'') && PlainFront(front)
    ensures var head := lead + key + b1 + "=" + b2;
            && ParseLine(head + ([q] + d + [q]) + b3) == Some((key, d))
            && ParseLine(head + (front + b3)) == Some((key, front))
            && ParseLine(head + (front + (b3 + "#" + comment))) == Some((key, front))
  {
    ParseSplit(lead, key, b1, b2, [q] + d + [q], b3);
    assert ([q] + d + [q])[1..|d| + 1] == d;
    CommentCut(front, b3, comment);
    CommentForm(lead, key, b1, b2, front, b3 + "#" + comment);
    CommentForm(lead, key, b1, b2, front, b3);
  }
}
