/**
 * The flat YAML reader and the in-place updater that must agree with it
 * (internal/dashboard/handlers/batchconfig.go). The two regular expressions are written out as
 * functions on strings; white space is what \s matches.
 */
module FlatYaml {
  import opened Prelude

  // ---------------------------------------------------------------- characters and cuts

  predicate IsSpace(c: char) {
    c == ' ' || c == '\t' || c == '\n' || c == '\r' || c == '\U{000C}'
  }

  predicate IsKeyStart(c: char) {
    'A' <= c <= 'Z' || 'a' <= c <= 'z' || c == '_'
  }

  predicate IsKeyChar(c: char) {
    IsKeyStart(c) || '0' <= c <= '9' || c == '-'
  }

  datatype Class = Space | NonSpace | KeyChar | NonHash | NonDollar | NameChar {
    predicate Has(c: char) {
      match this
      case Space => IsSpace(c)
      case NonSpace => !IsSpace(c)
      case KeyChar => IsKeyChar(c)
      case NonHash => c != '#'
      case NonDollar => c != '$'
      case NameChar => IsKeyChar(c) && c != '-'
    }

    predicate All(s: string) {
      forall i :: 0 <= i < |s| ==> Has(s[i])
    }

    /** The number of leading characters of this class. */
    function Span(s: string): (n: nat)
      ensures n <= |s| && (n < |s| ==> !Has(s[n]))
      ensures All(s[..n])
    {
      if s == "" || !Has(s[0]) then 0 else
      assert s[..1 + Span(s[1..])] == [s[0]] + s[1..][..Span(s[1..])];
      1 + Span(s[1..])
    }
  }

  lemma {:induction false} SpanOf(cls: Class, a: string, b: string)
    requires cls.All(a) && (b != "" ==> !cls.Has(b[0]))
    ensures cls.Span(a + b) == |a|
  {
    if a == "" {
      assert a + b == b;
    } else {
      assert (a + b)[1..] == a[1..] + b;
      SpanOf(cls, a[1..], b);
    }
  }

  /** Cuts off the leading characters of a class. */
  function Cut(cls: Class, s: string): (r: (string, string))
    ensures r.0 + r.1 == s && cls.All(r.0) && (r.1 != "" ==> !cls.Has(r.1[0]))
  {
    var n := cls.Span(s);
    (s[..n], s[n..])
  }

  lemma CutOf(cls: Class, a: string, b: string)
    requires cls.All(a) && (b != "" ==> !cls.Has(b[0]))
    ensures Cut(cls, a + b) == (a, b)
  {
    SpanOf(cls, a, b);
  }

  predicate IsKey(s: string) {
    s != "" && IsKeyStart(s[0]) && KeyChar.All(s)
  }

  function TrimRight(s: string): (t: string)
    ensures t <= s && (t != "" ==> !IsSpace(t[|t| - 1]))
  {
    if s != "" && IsSpace(s[|s| - 1]) then TrimRight(s[..|s| - 1]) else s
  }

  function TrimReturns(s: string): (t: string)
    ensures t <= s && (t != "" ==> t[|t| - 1] != '\r')
  {
    if s != "" && s[|s| - 1] == '\r' then TrimReturns(s[..|s| - 1]) else s
  }

  function UpToHash(s: string): string {
    s[..NonHash.Span(s)]
  }

  lemma {:induction false} TrimAppend(a: string, b: string)
    requires a != "" && !IsSpace(a[|a| - 1])
    ensures TrimRight(a + b) == a + TrimRight(b)
  {
    if b == "" || !IsSpace(b[|b| - 1]) {
      assert (a + b)[|a + b| - 1] == if b == "" then a[|a| - 1] else b[|b| - 1];
    } else {
      assert (a + b)[..|a + b| - 1] == a + b[..|b| - 1];
      TrimAppend(a, b[..|b| - 1]);
    }
  }

  lemma {:induction false} UpToHashAppend(a: string, b: string)
    requires NonHash.All(a)
    ensures UpToHash(a + b) == a + UpToHash(b)
  {
    if a == "" {
      assert a + b == b;
    } else {
      assert (a + b)[1..] == a[1..] + b;
      UpToHashAppend(a[1..], b);
    }
  }

  // ---------------------------------------------------------------- one line

  /** A "key: value" line cut into its parts: `indent key gap : gap rest`. */
  datatype Entry = Entry(indent: string, key: string, before: string, after: string, rest: string) {

    predicate Valid() {
      && Space.All(indent) && IsKey(key) && Space.All(before) && Space.All(after)
      && (rest != "" ==> !IsSpace(rest[0]))
    }

    function Line(): string {
      indent + (key + (before + (":" + (after + rest))))
    }

    /** The value: up to a '#', without trailing white space. */
    function Value(): string {
      TrimRight(UpToHash(rest))
    }
  }

  /** A value is the text before the blanks and the comment, if there is one. */
  lemma ValueBeforeComment(e: Entry, text: string, blanks: string, comment: string)
    requires e.rest == text + blanks + comment && NonHash.All(text) && Space.All(blanks)
    requires text != "" && !IsSpace(text[|text| - 1]) && (comment != "" ==> comment[0] == '#')
    ensures e.Value() == text
  {
    assert NonHash.All(text + blanks);
    SpanOf(NonHash, text + blanks, comment);
    assert UpToHash(e.rest) == text + blanks;
    TrimAppend(text, blanks);
    TrimEmptyIff(blanks);
    assert text + "" == text;
  }

  lemma Behind(n: string, after: string, rest: string)
    requires n != "" && n[0] == ':' && n[1..] == after + rest
    ensures n == ":" + (after + rest)
  {
    assert n == [n[0]] + n[1..];
  }

  /** yamlLineRe */
  function ParseLine(line: string): (e: Option<Entry>)
    ensures e.Some? ==> e.value.Valid() && e.value.Line() == line
  {
    var (indent, l) := Cut(Space, line);
    var (key, m) := Cut(KeyChar, l);
    var (before, n) := Cut(Space, m);
    if key == "" || !IsKeyStart(key[0]) || n == "" || n[0] != ':' then None else
    var (after, rest) := Cut(Space, n[1..]);
    Behind(n, after, rest);
    Some(Entry(indent, key, before, after, rest))
  }

  /** A line put together from parts is cut into the same parts. */
  lemma ParseAssembled(e: Entry)
    requires e.Valid()
    ensures ParseLine(e.Line()) == Some(e)
  {
    hide Cut;
    var n := ":" + (e.after + e.rest);
    var m := e.before + n;
    assert m[0] == ':' || IsSpace(m[0]);
    assert (e.key + m)[0] == e.key[0];
    CutOf(Space, e.indent, e.key + m);
    CutOf(KeyChar, e.key, m);
    CutOf(Space, e.before, n);
    assert n[1..] == e.after + e.rest;
    CutOf(Space, e.after, e.rest);
  }

  /** Blank lines, comments and array entries are not "key: value" lines. */
  predicate Skipped(line: string) {
    var (_, l) := Cut(Space, line);
    l == "" || l[0] == '#' || l[0] == '-'
  }

  lemma SkippedIsNoEntry(line: string)
    ensures Skipped(line) ==> ParseLine(line).None?
  {
  }

  // ---------------------------------------------------------------- paths

  datatype StackEntry = StackEntry(indent: nat, name: string)

  function Pop(stack: seq<StackEntry>, indent: nat): seq<StackEntry> {
    if stack != [] && stack[|stack| - 1].indent >= indent then Pop(stack[..|stack| - 1], indent) else stack
  }

  /** The names joined by dots, each followed by one. */
  function Prefix(stack: seq<StackEntry>): string {
    if stack == [] then "" else Prefix(stack[..|stack| - 1]) + stack[|stack| - 1].name + "."
  }

  function PathOf(stack: seq<StackEntry>, key: string): string {
    Prefix(stack) + key
  }

  /** What follows the last '.' of a dotted key. */
  function Leaf(path: string): string {
    if path == "" then "" else
    if path[|path| - 1] == '.' then "" else Leaf(path[..|path| - 1]) + [path[|path| - 1]]
  }

  lemma {:induction false} LeafOfPath(stack: seq<StackEntry>, key: string)
    requires '.' !in key
    ensures Leaf(PathOf(stack, key)) == key
  {
    var path := PathOf(stack, key);
    if key == "" {
      assert path == Prefix(stack);
    } else {
      var n := |key| - 1;
      assert path[..|path| - 1] == PathOf(stack, key[..n]);
      LeafOfPath(stack, key[..n]);
    }
  }

  datatype Binding = Binding(path: string, value: string)

  /** What both walks look at in a line. */
  datatype Slot = Slot(indent: nat, key: string, value: string)

  function SlotOf(raw: string): (s: Option<Slot>)
    ensures s.Some? ==> IsKey(s.value.key)
  {
    match ParseLine(TrimReturns(raw))
    case None => None
    case Some(e) => Some(Slot(|e.indent|, e.key, e.Value()))
  }

  /** The stack after a line. */
  function Push(stack: seq<StackEntry>, raw: string): seq<StackEntry> {
    PushSlot(stack, SlotOf(raw))
  }

  function PushSlot(stack: seq<StackEntry>, slot: Option<Slot>): seq<StackEntry> {
    match slot
    case None => stack
    case Some(s) =>
      if s.value == "" then Pop(stack, s.indent) + [StackEntry(s.indent, s.key)] else Pop(stack, s.indent)
  }

  /** What a line binds, if anything. */
  function Binds(stack: seq<StackEntry>, raw: string): Option<Binding> {
    match SlotOf(raw)
    case None => None
    case Some(s) => if s.value == "" then None else Some(Binding(PathOf(Pop(stack, s.indent), s.key), s.value))
  }

  function StackAfter(lines: seq<string>): seq<StackEntry> {
    if lines == [] then [] else Push(StackAfter(lines[..|lines| - 1]), lines[|lines| - 1])
  }

  /** The binding of line `i`. */
  function BindingAt(lines: seq<string>, i: nat): Option<Binding>
    requires i < |lines|
  {
    Binds(StackAfter(lines[..i]), lines[i])
  }

  /** The flat map: later lines win. */
  function Collect(lines: seq<string>): map<string, string> {
    if lines == [] then map[] else
    var n := |lines| - 1;
    match BindingAt(lines, n)
    case None => Collect(lines[..n])
    case Some(b) => Collect(lines[..n])[b.path := b.value]
  }

  // ---------------------------------------------------------------- lines of a file

  function SplitLines(content: string): (lines: seq<string>)
    ensures lines != [] && forall i :: 0 <= i < |lines| ==> '\n' !in lines[i]
    ensures JoinLines(lines) == content
  {
    if content == "" then [""] else
    var rest := SplitLines(content[1..]);
    if content[0] == '\n' then
      assert JoinLines([""] + rest) == "" + "\n" + JoinLines(rest);
      [""] + rest
    else
      assert JoinLines([[content[0]] + rest[0]] + rest[1..]) == [content[0]] + JoinLines(rest);
      [[content[0]] + rest[0]] + rest[1..]
  }

  function JoinLines(lines: seq<string>): string
    requires lines != []
  {
    if |lines| == 1 then lines[0] else lines[0] + "\n" + JoinLines(lines[1..])
  }

  lemma {:induction false} SplitJoin(lines: seq<string>)
    requires lines != [] && forall i :: 0 <= i < |lines| ==> '\n' !in lines[i]
    ensures SplitLines(JoinLines(lines)) == lines
    decreases |lines|, |lines[0]|
  {
    var content := JoinLines(lines);
    var l := lines[0];
    if l != "" {
      var shorter := [l[1..]] + lines[1..];
      assert l == [l[0]] + l[1..] && shorter[1..] == lines[1..];
      assert content[0] == l[0] && content[1..] == JoinLines(shorter);
      assert l[0] in l;
      SplitJoin(shorter);
    } else if |lines| > 1 {
      assert content == "\n" + JoinLines(lines[1..]);
      assert content[1..] == JoinLines(lines[1..]);
      SplitJoin(lines[1..]);
    }
  }

  function Parse(content: string): map<string, string> {
    Collect(SplitLines(content))
  }

  // ---------------------------------------------------------------- the reader

  method PopStack(stack: seq<StackEntry>, indent: nat) returns (popped: seq<StackEntry>)
    ensures popped == Pop(stack, indent)
  {
    popped := stack;
    while |popped| > 0 && popped[|popped| - 1].indent >= indent
      invariant Pop(popped, indent) == Pop(stack, indent)
    {
      popped := popped[..|popped| - 1];
    }
  }

  method BuildPath(stack: seq<StackEntry>, key: string) returns (path: string)
    ensures path == PathOf(stack, key)
  {
    path := "";
    for i := 0 to |stack|
      invariant path == Prefix(stack[..i])
    {
      assert stack[..i + 1][..i] == stack[..i];
      path := path + stack[i].name + ".";
    }
    assert stack[..|stack|] == stack;
    path := path + key;
  }

  /** The part of the loop body that reader and updater share. */
  method VisitLine(stack: seq<StackEntry>, raw: string) returns (next: seq<StackEntry>, bound: Option<Binding>)
    ensures next == Push(stack, raw) && bound == Binds(stack, raw)
  {
    hide ParseLine, TrimReturns, PathOf, Pop;
    var line := TrimReturns(raw);
    SkippedIsNoEntry(line);
    if Skipped(line) {
      return stack, None;
    }
    var m := ParseLine(line);
    if m.None? {
      return stack, None;
    }
    var e := m.value;
    next := PopStack(stack, |e.indent|);
    if e.Value() == "" {
      next := next + [StackEntry(|e.indent|, e.key)];
      return next, None;
    }
    var path := BuildPath(next, e.key);
    bound := Some(Binding(path, e.Value()));
  }

  method ParseFlatYAML(content: string) returns (out: map<string, string>)
    ensures out == Parse(content)
  {
    hide Binds, Push;
    out := map[];
    var stack: seq<StackEntry> := [];
    var lines := SplitLines(content);
    for i := 0 to |lines|
      invariant stack == StackAfter(lines[..i]) && out == Collect(lines[..i])
    {
      BindingOfPrefix(lines, i + 1);
      var bound;
      stack, bound := VisitLine(stack, lines[i]);
      if bound.Some? {
        out := out[bound.value.path := bound.value.value];
      }
    }
    assert lines[..|lines|] == lines;
  }

  // ---------------------------------------------------------------- what a path means

  type Slots = seq<Option<Slot>>

  function SlotsOf(lines: seq<string>): (slots: Slots)
    ensures |slots| == |lines| && forall i :: 0 <= i < |lines| ==> slots[i] == SlotOf(lines[i])
  {
    seq(|lines|, i requires 0 <= i < |lines| => SlotOf(lines[i]))
  }

  /** A section header: a "key:" line without a value. */
  predicate IsHeader(slots: Slots, j: nat) {
    j < |slots| && slots[j].Some? && slots[j].value.value == ""
  }

  /** Line `m` is a "key:" line, with a value or not, that is not indented more than the header `j`. */
  predicate Closes(slots: Slots, j: nat, m: nat)
    requires IsHeader(slots, j) && m < |slots|
  {
    slots[m].Some? && slots[m].value.indent <= slots[j].value.indent
  }

  /** Line `j` is a header, and no "key:" line behind it and before line `n` closes it. */
  ghost predicate IsOpen(slots: Slots, j: nat, n: nat)
    requires n <= |slots|
  {
    j < n && IsHeader(slots, j) && forall m :: j < m < n ==> !Closes(slots, j, m)
  }

  /** The header `j` is open at line `i` and less indented than it. */
  ghost predicate Encloses(slots: Slots, j: nat, i: nat)
    requires i < |slots|
  {
    IsOpen(slots, j, i) && !Closes(slots, j, i)
  }

  ghost predicate Ascending(js: seq<nat>) {
    forall a, b :: 0 <= a < b < |js| ==> js[a] < js[b]
  }

  predicate AllHeaders(slots: Slots, js: seq<nat>) {
    forall a :: 0 <= a < |js| ==> IsHeader(slots, js[a])
  }

  /** The names with a '.' between every two. */
  function Dotted(names: seq<string>): string
    requires names != []
  {
    if |names| == 1 then names[0] else names[0] + "." + Dotted(names[1..])
  }

  function KeysAt(slots: Slots, js: seq<nat>): seq<string>
    requires AllHeaders(slots, js)
  {
    seq(|js|, a requires 0 <= a < |js| => slots[js[a]].value.key)
  }

  function Names(stack: seq<StackEntry>): seq<string> {
    seq(|stack|, a requires 0 <= a < |stack| => stack[a].name)
  }

  lemma {:induction false} DottedPath(stack: seq<StackEntry>, key: string)
    ensures PathOf(stack, key) == Dotted(Names(stack) + [key])
  {
    if stack == [] {
      assert Names(stack) + [key] == [key];
    } else {
      var n := |stack| - 1;
      var last := stack[n].name + "." + key;
      DottedPath(stack[..n], last);
      DottedLast(Names(stack[..n]), stack[n].name, key);
      assert Names(stack[..n]) + [stack[n].name, key] == Names(stack) + [key];
      assert PathOf(stack, key) == PathOf(stack[..n], last);
    }
  }

  lemma {:induction false} DottedLast(names: seq<string>, a: string, b: string)
    ensures Dotted(names + [a + "." + b]) == Dotted(names + [a, b])
  {
    if names == [] {
      assert [] + [a + "." + b] == [a + "." + b] && [] + [a, b] == [a, b];
      assert [a, b][1..] == [b];
    } else {
      DottedLast(names[1..], a, b);
      assert (names + [a + "." + b])[1..] == names[1..] + [a + "." + b];
      assert (names + [a, b])[1..] == names[1..] + [a, b];
    }
  }

  /** The entries of the stack are these headers. */
  ghost predicate Holds(slots: Slots, stack: seq<StackEntry>, js: seq<nat>) {
    && |js| == |stack| && Ascending(js) && AllHeaders(slots, js)
    && forall a :: 0 <= a < |js| ==> stack[a] == StackEntry(slots[js[a]].value.indent, slots[js[a]].value.key)
  }

  /** The stack before line `n` holds the headers that are open there. */
  ghost predicate Tracks(slots: Slots, n: nat, stack: seq<StackEntry>, js: seq<nat>)
    requires n <= |slots|
  {
    Holds(slots, stack, js) && forall j :: j in js <==> IsOpen(slots, j, n)
  }

  /** On a stack with growing indents, popping keeps the entries indented less. */
  lemma {:induction false} PopCut(stack: seq<StackEntry>, indent: nat) returns (c: nat)
    requires forall a, b :: 0 <= a < b < |stack| ==> stack[a].indent < stack[b].indent
    ensures c <= |stack| && Pop(stack, indent) == stack[..c]
    ensures forall a :: 0 <= a < |stack| ==> (a < c <==> stack[a].indent < indent)
  {
    if stack != [] && stack[|stack| - 1].indent >= indent {
      c := PopCut(stack[..|stack| - 1], indent);
      assert stack[..|stack| - 1][..c] == stack[..c];
    } else {
      c := |stack|;
    }
  }

  lemma OpenIndentsGrow(slots: Slots, n: nat, stack: seq<StackEntry>, js: seq<nat>)
    requires n <= |slots| && Tracks(slots, n, stack, js)
    ensures forall a, b :: 0 <= a < b < |stack| ==> stack[a].indent < stack[b].indent
  {
    forall a, b | 0 <= a < b < |stack|
      ensures stack[a].indent < stack[b].indent
    {
      assert js[a] in js && js[b] in js && IsOpen(slots, js[a], n) && IsOpen(slots, js[b], n);
      assert !Closes(slots, js[a], js[b]);
    }
  }

  /** What popping leaves when line `n` is reached: the headers that enclose it. */
  lemma PopEnclosing(slots: Slots, n: nat, stack: seq<StackEntry>, js: seq<nat>) returns (ks: seq<nat>)
    requires n < |slots| && Tracks(slots, n, stack, js) && slots[n].Some?
    ensures Holds(slots, Pop(stack, slots[n].value.indent), ks)
    ensures forall j :: j in ks <==> Encloses(slots, j, n)
  {
    OpenIndentsGrow(slots, n, stack, js);
    var c := PopCut(stack, slots[n].value.indent);
    ks := js[..c];
    forall j
      ensures j in ks <==> Encloses(slots, j, n)
    {
      if j in ks {
        var a :| 0 <= a < c && ks[a] == j;
        assert js[a] in js && stack[a].indent < slots[n].value.indent;
      }
      if Encloses(slots, j, n) {
        assert j in js;
        var a :| 0 <= a < |js| && js[a] == j;
        assert stack[a].indent < slots[n].value.indent;
        assert ks[a] == j;
      }
    }
  }

  /** The headers open behind line `i`. */
  lemma OpenNext(slots: Slots, i: nat, j: nat)
    requires i < |slots|
    ensures IsOpen(slots, j, i + 1) <==>
            if slots[i].Some? then Encloses(slots, j, i) || (j == i && IsHeader(slots, i)) else IsOpen(slots, j, i)
  {
  }

  lemma TracksHeader(slots: Slots, i: nat, stack: seq<StackEntry>, js: seq<nat>)
    requires i < |slots| && IsHeader(slots, i) && Holds(slots, stack, js)
    requires forall j :: j in js <==> Encloses(slots, j, i)
    ensures var s := slots[i].value; Tracks(slots, i + 1, stack + [StackEntry(s.indent, s.key)], js + [i])
  {
    forall j
      ensures j in js + [i] <==> IsOpen(slots, j, i + 1)
    {
      OpenNext(slots, i, j);
    }
    forall a | 0 <= a < |js|
      ensures js[a] < i
    {
      assert js[a] in js;
    }
    hide Encloses, IsOpen;
  }

  lemma TracksOther(slots: Slots, i: nat, stack: seq<StackEntry>, js: seq<nat>)
    requires i < |slots| && !IsHeader(slots, i) && Holds(slots, stack, js)
    requires forall j :: j in js <==> if slots[i].Some? then Encloses(slots, j, i) else IsOpen(slots, j, i)
    ensures Tracks(slots, i + 1, stack, js)
  {
    hide IsOpen, Encloses, Holds;
    forall j
      ensures j in js <==> IsOpen(slots, j, i + 1)
    {
      OpenNext(slots, i, j);
    }
  }

  lemma TracksNext(slots: Slots, i: nat, stack: seq<StackEntry>, js: seq<nat>) returns (ks: seq<nat>)
    requires i < |slots| && Tracks(slots, i, stack, js)
    ensures Tracks(slots, i + 1, PushSlot(stack, slots[i]), ks)
  {
    hide IsOpen, Encloses, Holds, Pop;
    if slots[i].None? {
      ks := js;
      TracksOther(slots, i, stack, ks);
    } else {
      ks := PopEnclosing(slots, i, stack, js);
      hide Tracks;
      var popped := Pop(stack, slots[i].value.indent);
      if IsHeader(slots, i) {
        TracksHeader(slots, i, popped, ks);
        ks := ks + [i];
      } else {
        TracksOther(slots, i, popped, ks);
      }
    }
  }

  lemma {:induction false} OpenHeaders(lines: seq<string>, n: nat) returns (js: seq<nat>)
    requires n <= |lines|
    ensures Tracks(SlotsOf(lines), n, StackAfter(lines[..n]), js)
  {
    if n == 0 {
      js := [];
    } else {
      js := OpenHeaders(lines, n - 1);
      StackNext(lines, n);
      hide *;
      js := TracksNext(SlotsOf(lines), n - 1, StackAfter(lines[..n - 1]), js);
    }
  }

  lemma StackNext(lines: seq<string>, n: nat)
    requires 0 < n <= |lines|
    ensures StackAfter(lines[..n]) == PushSlot(StackAfter(lines[..n - 1]), SlotOf(lines[n - 1]))
  {
    hide SlotOf, PushSlot;
    assert lines[..n][..n - 1] == lines[..n - 1];
  }

  lemma BindingOf(lines: seq<string>, i: nat)
    requires i < |lines| && SlotOf(lines[i]).Some? && SlotOf(lines[i]).value.value != ""
    ensures var s := SlotOf(lines[i]).value;
            BindingAt(lines, i) == Some(Binding(PathOf(Pop(StackAfter(lines[..i]), s.indent), s.key), s.value))
  {
    hide SlotOf, PathOf, Pop, StackAfter;
  }

  lemma HeldNames(slots: Slots, stack: seq<StackEntry>, js: seq<nat>)
    requires Holds(slots, stack, js)
    ensures Names(stack) == KeysAt(slots, js)
  {
  }

  /**
   * What a line that binds a value binds, told by the lines alone: its value, under its key behind the
   * keys of exactly those section headers above that are indented less than it and than every "key:"
   * line between, in line order.
   */
  lemma PathFromIndentation(lines: seq<string>, i: nat) returns (js: seq<nat>)
    requires i < |lines| && SlotOf(lines[i]).Some? && SlotOf(lines[i]).value.value != ""
    ensures Ascending(js) && AllHeaders(SlotsOf(lines), js)
    ensures forall j :: j in js <==> Encloses(SlotsOf(lines), j, i)
    ensures var s := SlotOf(lines[i]).value;
            BindingAt(lines, i) == Some(Binding(Dotted(KeysAt(SlotsOf(lines), js) + [s.key]), s.value))
  {
    hide *;
    var open := OpenHeaders(lines, i);
    var stack, s := StackAfter(lines[..i]), SlotOf(lines[i]).value;
    js := PopEnclosing(SlotsOf(lines), i, stack, open);
    var popped := Pop(stack, s.indent);
    BindingOf(lines, i);
    DottedPath(popped, s.key);
    HeldNames(SlotsOf(lines), popped, js);
    HeldHeaders(SlotsOf(lines), popped, js);
  }

  lemma HeldHeaders(slots: Slots, stack: seq<StackEntry>, js: seq<nat>)
    requires Holds(slots, stack, js)
    ensures Ascending(js) && AllHeaders(slots, js)
  {
  }

  /** The map read has a path exactly if a line binds it. */
  lemma {:induction false} ReadIff(lines: seq<string>, path: string, n: nat)
    requires n <= |lines|
    ensures path in Collect(lines[..n]) <==> BoundIn(lines, 0, n, path)
  {
    if n > 0 {
      assert BindsPath(lines, n - 1, path) <==>
             BindingAt(lines, n - 1).Some? && BindingAt(lines, n - 1).value.path == path;
      hide *;
      ReadIff(lines, path, n - 1);
      CollectLast(lines, n);
      BindHas(Collect(lines[..n - 1]), path, BindingAt(lines, n - 1));
      BoundInLast(lines, 0, n, path);
    }
  }

  lemma BindHas(c: map<string, string>, path: string, b: Option<Binding>)
    ensures path in Bind(c, b) <==> path in c || (b.Some? && b.value.path == path)
  {
  }

  lemma BindElsewhere(c: map<string, string>, path: string, b: Option<Binding>)
    requires path in c && !(b.Some? && b.value.path == path)
    ensures path in Bind(c, b) && Bind(c, b)[path] == c[path]
  {
  }

  /** And then it has the value of the last line that does. */
  lemma {:induction false} LastLineWins(lines: seq<string>, path: string, i: nat, n: nat)
    requires i < n <= |lines| && BindsPath(lines, i, path) && !BoundIn(lines, i + 1, n, path)
    ensures path in Collect(lines[..n]) && Collect(lines[..n])[path] == BindingAt(lines, i).value.value
  {
    hide Collect, BindingAt, BoundIn;
    CollectLast(lines, n);
    if i < n - 1 {
      BoundInLast(lines, i + 1, n, path);
      LastLineWins(lines, path, i, n - 1);
      BindElsewhere(Collect(lines[..n - 1]), path, BindingAt(lines, n - 1));
    }
  }

  // ---------------------------------------------------------------- the updater

  /** Line `i` binds `path`. */
  predicate BindsPath(lines: seq<string>, i: nat, path: string)
    requires i < |lines|
  {
    BindingAt(lines, i).Some? && BindingAt(lines, i).value.path == path
  }

  /** A name or number behind a '$', in braces or not, and what follows it. */
  function TemplateName(s: string): (r: Option<(string, string)>)
    ensures r.Some? ==> |r.value.1| < |s|
  {
    if s == "" then None else
    var braced := s[0] == '{';
    var (name, rest) := Cut(NameChar, if braced then s[1..] else s);
    assert name + rest == if braced then s[1..] else s;
    if name == "" then None else
    if !braced then Some((name, rest)) else
    if rest == "" || rest[0] != '}' then None else
    Some((name, rest[1..]))
  }

  /** The submatch a name stands for. The groups have no names, so any other name stands for nothing. */
  function Submatch(name: string, groups: seq<string>): string
    requires |groups| <= 10
  {
    if |name| == 1 && '0' <= name[0] <= '9' && (name[0] - '0') as int < |groups| then
      groups[(name[0] - '0') as int]
    else
      ""
  }

  /** A replacement template of regexp: "$1", "${1}" and "$name" are submatches, "$$" is a '$'. */
  function Expand(template: string, groups: seq<string>): string
    requires |groups| <= 10
    decreases |template|
  {
    var (before, found) := Cut(NonDollar, template);
    assert |before| + |found| == |template|;
    if found == "" then template else
    var after := found[1..];
    if after != "" && after[0] == '$' then before + "$" + Expand(after[1..], groups) else
    match TemplateName(after)
    case None => before + "$" + Expand(after, groups)
    case Some((name, rest)) => before + Submatch(name, groups) + Expand(rest, groups)
  }

  lemma ExpandNothing(template: string, groups: seq<string>)
    requires |groups| <= 10 && NonDollar.All(template)
    ensures Expand(template, groups) == template
  {
    CutOf(NonDollar, template, "");
    assert template + "" == template;
  }

  /** "${d}" */
  function Reference(digit: char): string {
    ['$', '{', digit, '}']
  }

  lemma NameOfReference(digit: char, rest: string)
    requires '0' <= digit <= '9'
    ensures TemplateName(['{', digit, '}'] + rest) == Some(([digit], rest))
  {
    var s := ['{', digit, '}'] + rest;
    var close := ['}'] + rest;
    assert s[1..] == [digit] + close && close[1..] == rest;
    CutOf(NameChar, [digit], close);
    hide Cut;
  }

  /** A reference behind plain text. */
  lemma ExpandReference(before: string, digit: char, rest: string, groups: seq<string>)
    requires |groups| <= 10 && NonDollar.All(before) && '0' <= digit <= '9' && (digit - '0') as int < |groups|
    ensures Expand(before + (Reference(digit) + rest), groups)
            == before + groups[(digit - '0') as int] + Expand(rest, groups)
  {
    hide Cut, TemplateName, Expand, Reference;
    var found := Reference(digit) + rest;
    ReferenceShape(digit, rest);
    CutOf(NonDollar, before, found);
    NameOfReference(digit, rest);
    ExpandUnfold(before, found, groups);
  }

  /** A doubled '$' stands for one. */
  lemma ExpandDollar(before: string, rest: string, groups: seq<string>)
    requires |groups| <= 10 && NonDollar.All(before)
    ensures Expand(before + ("$$" + rest), groups) == before + "$" + Expand(rest, groups)
  {
    var found := "$$" + rest;
    CutOf(NonDollar, before, found);
    assert found[1..] == "$" + rest && found[1..][1..] == rest;
    hide Cut, TemplateName;
  }

  /** A name without braces reaches as far as it can. */
  lemma ExpandName(before: string, name: string, rest: string, groups: seq<string>)
    requires |groups| <= 10 && NonDollar.All(before) && name != "" && NameChar.All(name)
    requires rest != "" ==> !NameChar.Has(rest[0])
    ensures Expand(before + ("$" + (name + rest)), groups) == before + Submatch(name, groups) + Expand(rest, groups)
  {
    var found := "$" + (name + rest);
    CutOf(NonDollar, before, found);
    assert found[1..] == name + rest && (name + rest)[0] == name[0];
    CutOf(NameChar, name, rest);
    assert name[0] != '{' && name[0] != '$';
    assert TemplateName(found[1..]) == Some((name, rest));
    hide Cut, TemplateName, Expand;
    ExpandUnfold(before, found, groups);
  }

  lemma ReferenceShape(digit: char, rest: string)
    requires '0' <= digit <= '9'
    ensures var found := Reference(digit) + rest;
            && found != "" && !NonDollar.Has(found[0]) && found[1..] == ['{', digit, '}'] + rest
            && found[1..] != "" && found[1..][0] != '$'
  {
    assert (Reference(digit) + rest)[1..] == ['{', digit, '}'] + rest;
  }

  lemma ExpandUnfold(before: string, found: string, groups: seq<string>)
    requires |groups| <= 10 && Cut(NonDollar, before + found) == (before, found)
    requires found != "" && found[1..] != "" && found[1..][0] != '$' && TemplateName(found[1..]).Some?
    ensures var (name, rest) := TemplateName(found[1..]).value;
            Expand(before + found, groups) == before + Submatch(name, groups) + Expand(rest, groups)
  {
    hide Cut, TemplateName;
  }

  /** leafRe with its replacement: the first token of the value is exchanged for the template's value. */
  function ReplaceLeaf(line: string, leaf: string, newValue: string): string {
    match ParseLine(line)
    case Some(e) =>
      if e.key == leaf && e.rest != "" then Expand(Template(leaf, newValue), Groups(e)) else line
    case None => line
  }

  function Template(leaf: string, newValue: string): string {
    Reference('1') + (leaf + (Reference('2') + (newValue + Reference('4'))))
  }

  /** What leafRe matches, and its four groups. */
  function Groups(e: Entry): seq<string> {
    var (token, tail) := Cut(NonSpace, e.rest);
    [e.Line(), e.indent, e.before + ":" + e.after, token, tail]
  }

  lemma ExpandTemplate(leaf: string, newValue: string, groups: seq<string>)
    requires |groups| == 5 && NonDollar.All(leaf) && NonDollar.All(newValue)
    ensures Expand(Template(leaf, newValue), groups) == groups[1] + (leaf + (groups[2] + (newValue + groups[4])))
  {
    TemplateIs(leaf, newValue);
    ExpandTail(newValue, groups);
    hide *;
    ExpandFront(leaf, newValue + Reference('4'), groups);
  }

  lemma ExpandTail(newValue: string, groups: seq<string>)
    requires |groups| == 5 && NonDollar.All(newValue)
    ensures Expand(newValue + Reference('4'), groups) == newValue + groups[4]
  {
    hide Expand, Reference;
    ExpandNothing("", groups);
    ExpandReference(newValue, '4', "", groups);
    assert Reference('4') + "" == Reference('4');
  }

  /** Key and gap in front of what the template puts for the value. */
  lemma ExpandFront(leaf: string, third: string, groups: seq<string>)
    requires |groups| == 5 && NonDollar.All(leaf)
    ensures Expand(Reference('1') + (leaf + (Reference('2') + third)), groups)
            == groups[1] + (leaf + (groups[2] + Expand(third, groups)))
  {
    hide Expand, Reference;
    var second := leaf + (Reference('2') + third);
    ExpandReference(leaf, '2', third, groups);
    ExpandReference("", '1', second, groups);
    assert "" + (Reference('1') + second) == Reference('1') + second;
  }

  /** A "$" at the end of a new value joins the "${4}" behind it, which is then written as it stands. */
  lemma DollarAtEnd(leaf: string, v: string, groups: seq<string>)
    requires |groups| == 5 && NonDollar.All(leaf) && NonDollar.All(v)
    ensures Expand(Template(leaf, v + "$"), groups) == groups[1] + (leaf + (groups[2] + (v + "${4}")))
  {
    TemplateIs(leaf, v + "$");
    hide *;
    ExpandTrailingDollar(v, groups);
    ExpandFront(leaf, v + "$" + Reference('4'), groups);
  }

  lemma TemplateIs(leaf: string, newValue: string)
    ensures Template(leaf, newValue) == Reference('1') + (leaf + (Reference('2') + (newValue + Reference('4'))))
  {
  }

  lemma ExpandTrailingDollar(v: string, groups: seq<string>)
    requires |groups| == 5 && NonDollar.All(v)
    ensures Expand(v + "$" + Reference('4'), groups) == v + "${4}"
  {
    assert v + "$" + Reference('4') == v + ("$$" + "{4}") && v + "$" + "{4}" == v + "${4}";
    assert NonDollar.All("{4}");
    hide *;
    ExpandNothing("{4}", groups);
    ExpandDollar(v, "{4}", groups);
  }

  /** Without a '$' the new value is put in as it is. */
  lemma ExpandPlain(e: Entry, newValue: string)
    requires e.Valid() && NonDollar.All(newValue)
    ensures Expand(Template(e.key, newValue), Groups(e)) == e.(rest := newValue + Cut(NonSpace, e.rest).1).Line()
  {
    hide Cut, Expand, Template;
    ExpandTemplate(e.key, newValue, Groups(e));
    var tail := Cut(NonSpace, e.rest).1;
    assert e.key + ((e.before + ":" + e.after) + (newValue + tail))
           == e.key + (e.before + (":" + (e.after + (newValue + tail))));
  }

  method ReplaceFlatYAMLValue(content: string, dottedKey: string, newValue: string)
    returns (text: string, replaced: bool, ghost at: nat)
    ensures !replaced ==>
              text == content && forall i :: 0 <= i < |SplitLines(content)| ==>
                                    !BindsPath(SplitLines(content), i, dottedKey)
    ensures replaced ==>
              && IsFirst(SplitLines(content), at, dottedKey)
              && text == JoinLines(UpdateLine(SplitLines(content), at, dottedKey, newValue))
  {
    hide Binds, Push, ReplaceLeaf;
    var leaf := Leaf(dottedKey);
    var lines := SplitLines(content);
    var stack: seq<StackEntry> := [];
    for i := 0 to |lines|
      invariant stack == StackAfter(lines[..i])
      invariant forall j :: 0 <= j < i ==> !BindsPath(lines, j, dottedKey)
    {
      BindingOfPrefix(lines, i + 1);
      var bound;
      stack, bound := VisitLine(stack, lines[i]);
      if bound.None? || bound.value.path != dottedKey {
        continue;
      }
      lines := lines[i := ReplaceLeaf(TrimReturns(lines[i]), leaf, newValue)];
      return JoinLines(lines), true, i;
    }
    return content, false, 0;
  }

  ghost predicate IsFirst(lines: seq<string>, i: nat, path: string) {
    i < |lines| && BindsPath(lines, i, path) && forall j :: 0 <= j < i ==> !BindsPath(lines, j, path)
  }

  function UpdateLine(lines: seq<string>, i: nat, path: string, newValue: string): seq<string>
    requires i < |lines|
  {
    lines[i := ReplaceLeaf(TrimReturns(lines[i]), Leaf(path), newValue)]
  }

  // ---------------------------------------------------------------- they agree

  /** A nonempty token that regexp templates and comments leave alone. */
  predicate PlainToken(v: string) {
    v != "" && NonSpace.All(v) && NonHash.All(v) && NonDollar.All(v)
  }

  /** What of a value stays behind when its first token is exchanged: the text up to a '#', trimmed. */
  function Remainder(e: Entry): string {
    TrimRight(UpToHash(Cut(NonSpace, e.rest).1))
  }

  lemma NewValue(e: Entry, v: string)
    requires e.Valid() && e.Value() != "" && PlainToken(v)
    ensures var f := e.(rest := v + Cut(NonSpace, e.rest).1); f.Valid() && f.Value() == v + Remainder(e)
  {
    var tail := Cut(NonSpace, e.rest).1;
    UpToHashAppend(v, tail);
    assert !IsSpace(v[|v| - 1]);
    TrimAppend(v, UpToHash(tail));
  }

  lemma NoReturns(s: string)
    requires s != "" ==> s[|s| - 1] != '\r'
    ensures TrimReturns(s) == s
  {
  }

  /** The updated line still has the same indentation and key, and binds the new value. */
  lemma ReplacedLine(raw: string, e: Entry, v: string)
    requires ParseLine(TrimReturns(raw)) == Some(e) && e.Value() != "" && PlainToken(v)
    ensures SlotOf(ReplaceLeaf(TrimReturns(raw), e.key, v)) == Some(Slot(|e.indent|, e.key, v + Remainder(e)))
    ensures '\n' !in raw ==> '\n' !in ReplaceLeaf(TrimReturns(raw), e.key, v)
  {
    hide Cut, ParseLine, TrimReturns, UpToHash, TrimRight, Remainder;
    var tail := Cut(NonSpace, e.rest).1;
    var f := e.(rest := v + tail);
    NewValue(e, v);
    ValueNeedsText(e);
    SameEnds(e, f, tail, v);
    NoReturns(f.Line());
    ParseAssembled(f);
    ExpandPlain(e, v);
    hide PlainToken, Expand, Template, Groups;
    assert ReplaceLeaf(TrimReturns(raw), e.key, v) == f.Line();
  }

  /**
   * The text an update leaves: in the line that binds the key only its value's first token is exchanged,
   * and trailing carriage returns are dropped; every other line is as it was.
   */
  lemma UpdatedText(lines: seq<string>, i: nat, path: string, v: string)
    requires i < |lines| && BindsPath(lines, i, path) && NonDollar.All(v)
    ensures var e := ParseLine(TrimReturns(lines[i]));
            && e.Some? && e.value.Line() == TrimReturns(lines[i])
            && UpdateLine(lines, i, path, v) == lines[i := e.value.(rest := v + Cut(NonSpace, e.value.rest).1).Line()]
  {
    hide Cut, ParseLine, TrimReturns, Leaf;
    var e := BoundLine(lines, i, path);
    ValueNeedsText(e);
    ExpandPlain(e, v);
    hide Expand, Template, Groups, BindsPath, SlotOf;
  }

  lemma ValueNeedsText(e: Entry)
    requires e.Value() != ""
    ensures e.rest != ""
  {
  }

  lemma SameEnds(e: Entry, f: Entry, tail: string, v: string)
    requires e.rest != "" && f == e.(rest := v + tail) && tail == Cut(NonSpace, e.rest).1 && v != "" && NonSpace.All(v)
    requires e.Line()[|e.Line()| - 1] != '\r'
    ensures f.Line()[|f.Line()| - 1] != '\r'
    ensures '\n' !in e.Line() ==> '\n' !in f.Line()
  {
    var before := e.indent + (e.key + (e.before + (":" + e.after)));
    var token := Cut(NonSpace, e.rest).0;
    hide Cut;
    assert e.Line() == before + token + tail && f.Line() == before + v + tail;
    assert IsSpace('\r') && IsSpace('\n');
    assert '\n' !in v;
  }

  /** Exchanging a value for another leaves every later stack as it was. */
  lemma {:induction false} StackUnchanged(lines: seq<string>, i: nat, raw: string, j: nat)
    requires i < |lines| && j <= |lines|
    requires var s, t := SlotOf(lines[i]), SlotOf(raw);
             s.Some? && s.value.value != "" && t.Some? && t.value.value != ""
             && t.value == s.value.(value := t.value.value)
    ensures StackAfter(lines[i := raw][..j]) == StackAfter(lines[..j])
    decreases j
  {
    hide SlotOf;
    if j > 0 {
      StackUnchanged(lines, i, raw, j - 1);
      var before, after := lines[..j], lines[i := raw][..j];
      assert before[..j - 1] == lines[..j - 1] && after[..j - 1] == lines[i := raw][..j - 1];
    }
  }

  /** A line in `[from, to)` binds `path`. */
  ghost predicate BoundIn(lines: seq<string>, from: nat, to: nat, path: string) {
    exists j :: from <= j < to && j < |lines| && BindsPath(lines, j, path)
  }

  lemma BindingOfPrefix(lines: seq<string>, n: nat)
    requires 0 < n <= |lines|
    ensures BindingAt(lines[..n], n - 1) == BindingAt(lines, n - 1)
    ensures lines[..n][..n - 1] == lines[..n - 1]
  {
    assert lines[..n][..n - 1] == lines[..n - 1];
  }

  lemma {:induction false} CollectUnchanged(lines: seq<string>, i: nat, raw: string, path: string, n: nat)
    requires i < |lines| && n <= |lines| && BindsPath(lines, i, path)
    requires var s, t := SlotOf(lines[i]), SlotOf(raw);
             s.Some? && s.value.value != "" && t.Some? && t.value.value != ""
             && t.value == s.value.(value := t.value.value)
    ensures Collect(lines[i := raw][..n]) ==
            if n <= i || BoundIn(lines, i + 1, n, path) then Collect(lines[..n])
            else Collect(lines[..n])[path := SlotOf(raw).value.value]
    decreases n
  {
    if n == 0 {
      assert lines[i := raw][..0] == lines[..0];
    } else {
      var m := n - 1;
      BindingUnchanged(lines, i, raw, path, m);
      BoundInLast(lines, i + 1, n, path);
      hide Collect, BindingAt, BoundIn, SlotOf, Bind;
      CollectUnchanged(lines, i, raw, path, m);
      CollectLast(lines, n);
      CollectLast(lines[i := raw], n);
      BindOver(Collect(lines[..m]), path, SlotOf(raw).value.value, BindingAt(lines, m));
    }
  }

  function Bind(c: map<string, string>, b: Option<Binding>): map<string, string> {
    match b
    case None => c
    case Some(b) => c[b.path := b.value]
  }

  /** Binding a key anew, before or after another line. */
  lemma BindOver(c: map<string, string>, path: string, v: string, b: Option<Binding>)
    ensures b.Some? && b.value.path == path ==> Bind(c[path := v], b) == Bind(c, b)
    ensures b.Some? && b.value.path == path ==> Bind(c, Some(Binding(path, v))) == Bind(c, b)[path := v]
    ensures b.None? || b.value.path != path ==> Bind(c[path := v], b) == Bind(c, b)[path := v]
  {
  }

  lemma CollectLast(lines: seq<string>, n: nat)
    requires 0 < n <= |lines|
    ensures Collect(lines[..n]) == Bind(Collect(lines[..n - 1]), BindingAt(lines, n - 1))
  {
    hide BindingAt;
    BindingOfPrefix(lines, n);
  }

  /** Exchanging a value changes what its own line binds, and nothing else. */
  lemma BindingUnchanged(lines: seq<string>, i: nat, raw: string, path: string, m: nat)
    requires i < |lines| && m < |lines| && BindsPath(lines, i, path)
    requires var s, t := SlotOf(lines[i]), SlotOf(raw);
             s.Some? && s.value.value != "" && t.Some? && t.value.value != ""
             && t.value == s.value.(value := t.value.value)
    ensures m != i ==> BindingAt(lines[i := raw], m) == BindingAt(lines, m)
    ensures BindsPath(lines, m, path) <==> BindingAt(lines, m).Some? && BindingAt(lines, m).value.path == path
    ensures m == i ==> BindingAt(lines, m).Some? && BindingAt(lines, m).value.path == path
                       && BindingAt(lines[i := raw], m) == Some(Binding(path, SlotOf(raw).value.value))
  {
    hide SlotOf, PathOf, Pop;
    StackUnchanged(lines, i, raw, m);
    hide StackAfter;
  }

  lemma BoundInLast(lines: seq<string>, from: nat, n: nat, path: string)
    requires 0 < n <= |lines|
    ensures BoundIn(lines, from, n, path)
            <==> BoundIn(lines, from, n - 1, path) || (from < n && BindsPath(lines, n - 1, path))
    ensures from >= n ==> !BoundIn(lines, from, n, path)
  {
    hide BindsPath;
  }

  /** The parts of a line that binds `path`; its key is the path's leaf. */
  lemma BoundLine(lines: seq<string>, i: nat, path: string) returns (e: Entry)
    requires i < |lines| && BindsPath(lines, i, path)
    ensures ParseLine(TrimReturns(lines[i])) == Some(e) && e.Value() != "" && Leaf(path) == e.key
    ensures SlotOf(lines[i]) == Some(Slot(|e.indent|, e.key, e.Value()))
  {
    hide ParseLine, TrimReturns, Leaf, PathOf;
    e := ParseLine(TrimReturns(lines[i])).value;
    assert !IsKeyChar('.');
    LeafOfPath(Pop(StackAfter(lines[..i]), |e.indent|), e.key);
  }

  /**
   * What an update does to what is read, for every file and every plain new value: the key reads as
   * the new value followed by whatever stood behind the old value's first token, unless a later
   * line binds the key again, which hides it.
   */
  lemma UpdateReads(content: string, path: string, v: string, i: nat)
    requires PlainToken(v) && IsFirst(SplitLines(content), i, path)
    ensures var lines := SplitLines(content);
            var e := ParseLine(TrimReturns(lines[i]));
            && e.Some?
            && Parse(JoinLines(UpdateLine(lines, i, path, v))) ==
               if BoundIn(lines, i + 1, |lines|, path) then Parse(content)
               else Parse(content)[path := v + Remainder(e.value)]
  {
    hide ParseLine, TrimReturns, ReplaceLeaf, Remainder, UpToHash;
    var lines := SplitLines(content);
    var e := BoundLine(lines, i, path);
    ReplacedLine(lines[i], e, v);
    var raw := ReplaceLeaf(TrimReturns(lines[i]), e.key, v);
    assert |v + Remainder(e)| > 0;
    SplitJoin(lines[i := raw]);
    CollectUnchanged(lines, i, raw, path, |lines|);
    assert lines[..|lines|] == lines && lines[i := raw][..|lines|] == lines[i := raw];
  }

  /**
   * With a key bound by one line only, an update changes exactly that key to exactly the new value
   * if and only if nothing but white space stands between the value's first token and a '#'.
   */
  lemma UpdateExactIff(content: string, path: string, v: string, i: nat)
    requires PlainToken(v) && IsFirst(SplitLines(content), i, path)
    requires !BoundIn(SplitLines(content), i + 1, |SplitLines(content)|, path)
    ensures var lines := SplitLines(content);
            var e := ParseLine(TrimReturns(lines[i]));
            && e.Some?
            && (Parse(JoinLines(UpdateLine(lines, i, path, v))) == Parse(content)[path := v]
                <==> Space.All(UpToHash(Cut(NonSpace, e.value.rest).1)))
  {
    UpdateReads(content, path, v, i);
    var e := ParseLine(TrimReturns(SplitLines(content)[i])).value;
    TrimEmptyIff(UpToHash(Cut(NonSpace, e.rest).1));
    SameUpdateIff(Parse(content), path, v, Remainder(e));
    hide ParseLine, Parse, UpdateLine, BoundIn, IsFirst;
  }

  lemma SameUpdateIff(m: map<string, string>, k: string, v: string, more: string)
    ensures m[k := v + more] == m[k := v] <==> more == ""
  {
    assert m[k := v + more][k] == v + more && m[k := v][k] == v;
    assert |v + more| == |v| + |more|;
    assert more == "" ==> v + more == v;
  }

  lemma {:induction false} TrimEmptyIff(s: string)
    ensures TrimRight(s) == "" <==> Space.All(s)
  {
    if s != "" && IsSpace(s[|s| - 1]) {
      TrimEmptyIff(s[..|s| - 1]);
      assert forall i :: 0 <= i < |s| - 1 ==> s[i] == s[..|s| - 1][i];
    }
  }

  /**
   * Where the condition fails although the value read is a single token: with a comment glued to
   * it, as in "k: a#b c", the first token includes part of the comment and the rest surfaces
   * behind the new value.
   */
  lemma GluedCommentSurfaces(e: Entry, token: string, glued: string, more: string)
    requires token != "" && NonSpace.All(token) && NonHash.All(token) && NonSpace.All(glued)
    requires more != "" && NonHash.All(more) && !IsSpace(more[|more| - 1])
    requires e.rest == token + "#" + glued + " " + more
    ensures e.Value() == token && Remainder(e) == " " + more
  {
    var first, tail := token + "#" + glued, " " + more;
    assert e.rest == first + tail && e.rest == token + ("#" + glued + tail);
    CutOf(NonSpace, first, tail);
    UpToHashAppend(token, "#" + glued + tail);
    UpToHashAppend(tail, "");
    assert tail + "" == tail && token + "" == token;
    hide Cut;
    assert !IsSpace(token[|token| - 1]);
  }
}
