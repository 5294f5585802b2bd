/**
 OFX 1.x bodies: finding the body behind the header, and closing the leaf elements that SGML leaves open so that
 an XML reader accepts the result. Text is valid UTF-8, read as a sequence of code points.
 */
module Sgml {
  import opened Wrappers
  import opened Strings

  /* ---------- Where the body starts ---------- */

  function AsciiFold(c: char): char {
    if 'a' <= c <= 'z' then c - 'a' + 'A' else c
  }

  /** Two characters agree exactly if they are equal or the two cases of one ASCII letter. */
  lemma FoldMeans(a: char, b: char)
    ensures AsciiFold(a) == AsciiFold(b)
            <==> a == b || ('a' <= a <= 'z' && b as int == a as int - 32) || ('a' <= b <= 'z' && a as int == b as int - 32)
  {
  }

  /** sep occurs in data at i up to ASCII case. */
  predicate FoldMatch(data: string, sep: string, i: int) {
    0 <= i <= |data| - |sep| && forall j :: 0 <= j < |sep| ==> AsciiFold(data[i + j]) == AsciiFold(sep[j])
  }

  /** The first occurrence, -1 when there is none; an empty text occurs nowhere. */
  method IndexFoldAscii(data: string, sep: string) returns (at: int)
    ensures at == -1 <==> sep == "" || forall i :: !FoldMatch(data, sep, i)
    ensures at != -1 ==> FoldMatch(data, sep, at) && forall i :: i < at ==> !FoldMatch(data, sep, i)
  {
    if |sep| == 0 || |data| < |sep| { return -1; }
    var i := 0;
    while i <= |data| - |sep|
      invariant 0 <= i <= |data| - |sep| + 1
      invariant forall k :: k < i ==> !FoldMatch(data, sep, k)
    {
      var same := true;
      var j := 0;
      while j < |sep|
        invariant 0 <= j <= |sep|
        invariant same ==> forall k :: 0 <= k < j ==> AsciiFold(data[i + k]) == AsciiFold(sep[k])
        invariant !same ==> !FoldMatch(data, sep, i)
      {
        if AsciiFold(data[i + j]) != AsciiFold(sep[j]) {
          same := false;
          break;
        }
        j := j + 1;
      }
      if same {
        assert FoldMatch(data, sep, i);
        return i;
      }
      i := i + 1;
    }
    return -1;
  }

  /** "<OFX>" at i, its letters in either case. */
  ghost predicate BodyTagAt(data: string, i: int) {
    && 0 <= i <= |data| - 5
    && data[i] == '<' && data[i + 1] in "oO" && data[i + 2] in "fF" && data[i + 3] in "xX" && data[i + 4] == '>'
  }

  lemma BodyTag(data: string, i: int)
    ensures FoldMatch(data, "<OFX>", i) <==> BodyTagAt(data, i)
  {
    var sep := "<OFX>";
    assert |sep| == 5 && sep[0] == '<' && sep[1] == 'O' && sep[2] == 'F' && sep[3] == 'X' && sep[4] == '>';
    if BodyTagAt(data, i) {
      forall j | 0 <= j < 5 ensures AsciiFold(data[i + j]) == AsciiFold(sep[j]) {}
    }
  }

  /** Header and body; None when there is no <OFX> tag in any case. */
  method SplitHeaderAndBody(data: string) returns (r: Option<(string, string)>)
    ensures r.None? <==> forall i :: !BodyTagAt(data, i)
    ensures r.Some? ==> r.value.0 + r.value.1 == data && BodyTagAt(r.value.1, 0)
    ensures r.Some? ==> forall i :: i < |r.value.0| ==> !BodyTagAt(data, i)
  {
    forall i ensures FoldMatch(data, "<OFX>", i) <==> BodyTagAt(data, i) { BodyTag(data, i); }
    var at := IndexFoldAscii(data, "<OFX>");
    if at == -1 { return None; }
    var body := data[at..];
    assert BodyTagAt(data, at);
    return Some((data[..at], body));
  }

  /* ---------- Lines ---------- */

  /** bufio.Scanner gives up on a line of this many bytes. */
  const MAX_LINE := 65536

  function CharBytes(c: char): nat {
    if c as int < 0x80 then 1 else if c as int < 0x800 then 2 else if c as int < 0x10000 then 3 else 4
  }

  function Bytes(s: string): nat {
    if s == "" then 0 else CharBytes(s[0]) + Bytes(s[1..])
  }

  predicate TooLong(line: string) {
    Bytes(line) >= MAX_LINE
  }

  ghost predicate IsAscii(s: string) {
    forall i :: 0 <= i < |s| ==> s[i] as int < 128
  }

  /** Plain ASCII is one byte a character; other text has up to four. */
  lemma {:induction false} BytesOf(s: string)
    ensures |s| <= Bytes(s) <= 4 * |s|
    ensures Bytes(s) == |s| <==> IsAscii(s)
  {
    if s != "" {
      BytesOf(s[1..]);
      assert IsAscii(s) <==> s[0] as int < 128 && IsAscii(s[1..]);
    }
  }

  function AfterLine(data: string): (rest: string)
    ensures data != "" ==> |rest| < |data|
  {
    var e := Find('\n', data);
    if e < |data| then data[e + 1..] else ""
  }

  /** The lines of a text, without their newlines. */
  function Lines(data: string): seq<string>
    decreases |data|
  {
    if data == "" then [] else [data[..Find('\n', data)]] + Lines(AfterLine(data))
  }

  /** The lines the scanner hands out: it stops for good at the first one that is too long. */
  function Kept(lines: seq<string>): seq<string> {
    if lines == [] || TooLong(lines[0]) then [] else [lines[0]] + Kept(lines[1..])
  }

  function DropCR(line: string): string {
    if line != "" && line[|line| - 1] == '\r' then line[..|line| - 1] else line
  }

  class Scanner {
    var rest: string
    var failed: bool
    var token: string

    constructor (data: string)
      ensures rest == data && !failed
    {
      rest, failed, token := data, false, "";
    }

    /** What Scan has still to hand out. */
    function Pending(): seq<string>
      reads this
    {
      if failed then [] else Kept(Lines(rest))
    }

    method Scan() returns (more: bool)
      modifies this
      ensures more <==> old(Pending()) != []
      ensures more ==> token == DropCR(old(Pending())[0]) && Pending() == old(Pending())[1..]
      ensures !more ==> Pending() == []
      ensures more ==> |rest| < old(|rest|)
    {
      if failed || rest == "" { return false; }
      var line := rest[..Find('\n', rest)];
      if TooLong(line) {
        failed := true;
        return false;
      }
      token := DropCR(line);
      rest := AfterLine(rest);
      return true;
    }
  }

  /* ---------- The rewriting ---------- */

  predicate HasPrefix(s: string, prefix: string) {
    prefix <= s
  }

  function ProcessLine(line: string): string {
    if HasPrefix(line, "</") then line
    else if !HasPrefix(line, "<") then line
    else
      var end := Find('>', line);
      if end == |line| then line
      else
        var tag := line[1..end];
        var value := TrimSpace(line[end + 1..]);
        if value != "" && !HasPrefix(value, "<") then OpenTag(tag) + value + CloseTag(tag) else line
  }

  function OpenTag(tag: string): string {
    "<" + tag + ">"
  }

  function CloseTag(tag: string): string {
    "</" + tag + ">"
  }

  /** Only a line that opens a tag, ends it and goes on with something is ever changed. */
  lemma OtherLinesStay(line: string)
    requires line == "" || line[0] != '<' || (|line| > 1 && line[1] == '/') || '>' !in line[..|line| - 1]
    ensures ProcessLine(line) == line
  {
    FindFirst('>', line);
  }

  /** Trimmed lines that are not blank. */
  function Content(lines: seq<string>): seq<string> {
    if lines == [] then []
    else (if TrimSpace(lines[0]) == "" then [] else [TrimSpace(lines[0])]) + Content(lines[1..])
  }

  /** Each line processed and ended. */
  function Written(lines: seq<string>): string {
    if lines == [] then "" else ProcessLine(lines[0]) + "\n" + Written(lines[1..])
  }

  function Rewritten(data: string): string {
    Written(Content(Kept(Lines(data))))
  }

  lemma {:induction false} TrimIgnores(s: string, c: char)
    requires IsSpace(c)
    ensures TrimSpace(s + [c]) == TrimSpace(s)
  {
    if s == "" {
      assert s + [c] == [c] && [c][1..] == "";
    } else if IsSpace(s[0]) {
      assert (s + [c])[1..] == s[1..] + [c];
      TrimIgnores(s[1..], c);
    } else {
      assert (s + [c])[..|s|] == s;
    }
  }

  /** What one scanned line adds to the output. */
  lemma WrittenStep(lines: seq<string>)
    requires lines != []
    ensures var line := TrimSpace(DropCR(lines[0]));
            Written(Content(lines)) == (if line == "" then "" else ProcessLine(line) + "\n") + Written(Content(lines[1..]))
  {
    hide ProcessLine, TrimSpace;
    var line := TrimSpace(lines[0]);
    if DropCR(lines[0]) != lines[0] {
      assert lines[0] == DropCR(lines[0]) + ['\r'];
      TrimIgnores(DropCR(lines[0]), '\r');
    }
    var later := Content(lines[1..]);
    if line != "" { assert ([line] + later)[1..] == later; } else { assert Content(lines) == later; }
  }

  method SgmlToXml(data: string) returns (buf: string)
    ensures buf == Rewritten(data)
  {
    hide ProcessLine, TrimSpace, Kept, Lines, Content, Written, DropCR, TooLong, Find;
    buf := "";
    var scanner := new Scanner(data);
    var more := scanner.Scan();
    ghost var todo := Kept(Lines(data));
    while more
      invariant fresh(scanner)
      invariant !more ==> todo == []
      invariant more ==> todo != [] && scanner.token == DropCR(todo[0]) && scanner.Pending() == todo[1..]
      invariant buf + Written(Content(todo)) == Rewritten(data)
      decreases more, |scanner.rest|
    {
      var line := TrimSpace(scanner.token);
      WrittenStep(todo);
      if line != "" {
        buf := buf + ProcessLine(line) + "\n";
      }
      todo := todo[1..];
      more := scanner.Scan();
    }
    NothingWritten();
  }

  lemma NothingWritten()
    ensures Written(Content([])) == ""
  {
  }

  /* ---------- Reading tags back ---------- */

  datatype Event = Open(tag: string) | Close(tag: string) | Value(text: string)

  function TagEvent(name: string): Event {
    if HasPrefix(name, "/") then Close(name[1..]) else Open(name)
  }

  /** The tags and the trimmed texts between them; None when a tag does not end. */
  function Events(s: string): Option<seq<Event>>
    decreases |s|
  {
    if s == "" then Some([])
    else if s[0] == '<' then
      var end := Find('>', s);
      if end == |s| then None
      else
        var rest := Events(s[end + 1..]);
        if rest.None? then None else Some([TagEvent(s[1..end])] + rest.value)
    else
      var end := Find('<', s);
      var rest := Events(s[end..]);
      var text := TrimSpace(s[..end]);
      if rest.None? then None else Some((if text == "" then [] else [Value(text)]) + rest.value)
  }

  /** The open elements after one event, innermost last; None when a closing tag does not match. */
  function After(open: seq<string>, event: Event): Option<seq<string>> {
    match event
    case Open(tag) => Some(open + [tag])
    case Close(tag) => if open != [] && open[|open| - 1] == tag then Some(open[..|open| - 1]) else None
    case Value(_) => Some(open)
  }

  function Nested(open: seq<string>, events: seq<Event>): Option<seq<string>>
    decreases |events|
  {
    if events == [] then Some(open)
    else if After(open, events[0]).None? then None
    else Nested(After(open, events[0]).value, events[1..])
  }

  predicate Balanced(events: seq<Event>) {
    Nested([], events) == Some([])
  }

  /* ---------- Documents ---------- */

  datatype Node = Leaf(tag: string, value: string) | Aggregate(tag: string, children: seq<Node>)

  /** The events of a forest in XML. */
  function ForestEvents(nodes: seq<Node>): seq<Event> {
    if nodes == [] then [] else NodeEvents(nodes[0]) + ForestEvents(nodes[1..])
  }

  function NodeEvents(node: Node): seq<Event> {
    match node
    case Leaf(tag, value) => [Open(tag), Value(value), Close(tag)]
    case Aggregate(tag, children) => [Open(tag)] + ForestEvents(children) + [Close(tag)]
  }

  /** One line of a body. A leaf may have space in front of its value; some banks already close their leaves. */
  datatype Line = OpenLine(tag: string) | CloseLine(tag: string) | LeafLine(tag: string, gap: string, value: string, closed: bool)
  {
    predicate Valid() {
      && ValidTag(tag)
      && (LeafLine? ==> (forall i :: 0 <= i < |gap| ==> IsSpace(gap[i])) && ValidValue(value))
    }

    function Text(): string {
      match this
      case OpenLine(tag) => OpenTag(tag)
      case CloseLine(tag) => CloseTag(tag)
      case LeafLine(tag, gap, value, closed) => OpenTag(tag) + (gap + (value + if closed then CloseTag(tag) else ""))
    }

    /** The line up to the gap, and without a closing tag of its own. */
    function Plain(): Line {
      if LeafLine? then LeafLine(tag, "", value, false) else this
    }

    /** What a reader finds in the rewritten line. */
    function Events(): seq<Event> {
      match this
      case OpenLine(tag) => [Open(tag)]
      case CloseLine(tag) => [Close(tag)]
      case LeafLine(tag, _, value, closed) => [Open(tag), Value(value), Close(tag)] + if closed then [Close(tag)] else []
    }
  }

  predicate NameChar(c: char) {
    c != '<' && c != '>' && c != '/' && !IsSpace(c)
  }

  predicate ValidTag(tag: string) {
    tag != "" && forall i :: 0 <= i < |tag| ==> NameChar(tag[i])
  }

  predicate ValidValue(value: string) {
    value != "" && '<' !in value && !IsSpace(value[0]) && !IsSpace(value[|value| - 1])
  }

  /** A forest in SGML, one element to a line and leaves not closed. */
  function ForestLines(nodes: seq<Node>): seq<Line> {
    if nodes == [] then [] else NodeLines(nodes[0]) + ForestLines(nodes[1..])
  }

  function NodeLines(node: Node): seq<Line> {
    match node
    case Leaf(tag, value) => [LeafLine(tag, "", value, false)]
    case Aggregate(tag, children) => [OpenLine(tag)] + ForestLines(children) + [CloseLine(tag)]
  }

  function PlainLines(body: seq<Line>): seq<Line> {
    seq(|body|, i requires 0 <= i < |body| => body[i].Plain())
  }

  function TextLines(body: seq<Line>): seq<string> {
    seq(|body|, i requires 0 <= i < |body| => body[i].Text())
  }

  function BodyEvents(body: seq<Line>): seq<Event> {
    if body == [] then [] else body[0].Events() + BodyEvents(body[1..])
  }

  predicate ValidBody(body: seq<Line>) {
    forall i :: 0 <= i < |body| ==> body[i].Valid()
  }

  /* ---------- A rewritten line reads as its events ---------- */

  lemma EndOfTag(tag: string, rest: string)
    requires ValidTag(tag)
    ensures Find('>', OpenTag(tag) + rest) == |tag| + 1
    ensures (OpenTag(tag) + rest)[1..|tag| + 1] == tag && (OpenTag(tag) + rest)[|tag| + 2..] == rest
    ensures (OpenTag(tag) + rest)[..1] == "<" && !HasPrefix(OpenTag(tag) + rest, "</")
  {
    hide Find;
    var line := OpenTag(tag) + rest;
    forall k | 0 <= k < |tag| + 1 ensures line[k] != '>' {
      if k > 0 { assert line[k] == tag[k - 1] && NameChar(tag[k - 1]); }
    }
    FindIs('>', line, |tag| + 1);
    assert line[1] == tag[0] && NameChar(tag[0]);
  }

  lemma ProcessTag(tag: string)
    requires ValidTag(tag)
    ensures ProcessLine(OpenTag(tag)) == OpenTag(tag) && ProcessLine(CloseTag(tag)) == CloseTag(tag)
  {
    EndOfTag(tag, "");
    assert OpenTag(tag) + "" == OpenTag(tag);
    assert TrimSpace("") == "";
    hide Find, TrimSpace;
  }

  lemma ProcessLeaf(tag: string, gap: string, value: string)
    requires ValidTag(tag) && IsPad(gap) && value != "" && value[0] != '<' && !IsSpace(value[0]) && !IsSpace(value[|value| - 1])
    ensures ProcessLine(OpenTag(tag) + (gap + value)) == OpenTag(tag) + value + CloseTag(tag)
  {
    hide TrimSpace, Find, IsSpace;
    EndOfTag(tag, gap + value);
    assert gap + value == gap + value + "";
    TrimDrops(gap, value, "");
  }

  function Prepend(events: seq<Event>, rest: Option<seq<Event>>): Option<seq<Event>> {
    if rest.None? then None else Some(events + rest.value)
  }

  lemma PrependTwice(a: seq<Event>, b: seq<Event>, rest: Option<seq<Event>>)
    ensures Prepend(a, Prepend(b, rest)) == Prepend(a + b, rest)
  {
    if rest.Some? { assert a + (b + rest.value) == (a + b) + rest.value; }
  }

  lemma ReadOpen(tag: string, rest: string)
    requires ValidTag(tag)
    ensures Events(OpenTag(tag) + rest) == Prepend([Open(tag)], Events(rest))
  {
    EndOfTag(tag, rest);
    hide Find;
    assert NameChar(tag[0]);
  }

  lemma ReadClose(tag: string, rest: string)
    requires ValidTag(tag)
    ensures Events(CloseTag(tag) + rest) == Prepend([Close(tag)], Events(rest))
  {
    hide Find;
    var s := CloseTag(tag) + rest;
    forall k | 0 <= k < |tag| + 2 ensures s[k] != '>' {
      if k > 1 { assert s[k] == tag[k - 2] && NameChar(tag[k - 2]); }
    }
    FindIs('>', s, |tag| + 2);
    assert s[1..|tag| + 2] == "/" + tag && s[|tag| + 3..] == rest;
    assert ("/" + tag)[1..] == tag;
  }

  /** Text up to the next tag or the end. */
  lemma ReadText(text: string, rest: string)
    requires text != "" && '<' !in text && (rest != "" ==> rest[0] == '<')
    ensures Events(text + rest) == Prepend(if TrimSpace(text) == "" then [] else [Value(TrimSpace(text))], Events(rest))
  {
    hide TrimSpace, Find;
    var s := text + rest;
    FindIs('<', s, |text|);
    assert s[..|text|] == text && s[|text|..] == rest;
  }

  lemma ReadNewline(rest: string)
    requires rest != "" ==> rest[0] == '<'
    ensures Events("\n" + rest) == Events(rest)
  {
    ReadText("\n", rest);
    assert "\n"[1..] == "";
    if Events(rest).Some? { assert [] + Events(rest).value == Events(rest).value; }
  }

  lemma ReadLeaf(tag: string, value: string, rest: string)
    requires ValidTag(tag) && ValidValue(value)
    ensures Events(OpenTag(tag) + (value + (CloseTag(tag) + rest))) == Prepend([Open(tag), Value(value), Close(tag)], Events(rest))
  {
    hide Events, TrimSpace;
    var close := CloseTag(tag) + rest;
    ReadOpen(tag, value + close);
    TrimKeeps(value);
    ReadText(value, close);
    ReadClose(tag, rest);
    PrependTwice([Value(value)], [Close(tag)], Events(rest));
    PrependTwice([Open(tag)], [Value(value), Close(tag)], Events(rest));
    assert [Value(value)] + [Close(tag)] == [Value(value), Close(tag)];
    assert [Open(tag)] + [Value(value), Close(tag)] == [Open(tag), Value(value), Close(tag)];
  }

  lemma ReadLeafLine(tag: string, gap: string, value: string, closed: bool, ending: string)
    requires LeafLine(tag, gap, value, closed).Valid()
    ensures Events(ProcessLine(LeafLine(tag, gap, value, closed).Text()) + ending)
            == Prepend(LeafLine(tag, gap, value, closed).Events(), Events(ending))
  {
    hide Events, TrimSpace, ProcessLine, IsSpace;
    var open, close := OpenTag(tag), CloseTag(tag);
    assert value + "" == value;
    if closed {
      assert (value + close)[0] == value[0] && (value + close)[|value + close| - 1] == '>';
      NotSpace();
      ProcessLeaf(tag, gap, value + close);
      hide OpenTag, CloseTag;
      ReadLeaf(tag, value, close + ending);
      ReadClose(tag, ending);
      PrependTwice([Open(tag), Value(value), Close(tag)], [Close(tag)], Events(ending));
      assert open + (value + close) + close + ending == open + (value + (close + (close + ending)));
    } else {
      ProcessLeaf(tag, gap, value);
      hide OpenTag, CloseTag;
      ReadLeaf(tag, value, ending);
      assert open + value + close + ending == open + (value + (close + ending));
      assert [Open(tag), Value(value), Close(tag)] + [] == [Open(tag), Value(value), Close(tag)];
    }
  }

  lemma NotSpace()
    ensures !IsSpace('>')
  {
  }

  lemma ReadLine(line: Line, rest: string)
    requires line.Valid() && (rest != "" ==> rest[0] == '<')
    ensures Events(ProcessLine(line.Text()) + ("\n" + rest)) == Prepend(line.Events(), Events(rest))
  {
    hide Events, TrimSpace, ProcessLine, OpenTag, CloseTag;
    ReadNewline(rest);
    match line
    case OpenLine(tag) =>
      ProcessTag(tag);
      ReadOpen(tag, "\n" + rest);
    case CloseLine(tag) =>
      ProcessTag(tag);
      ReadClose(tag, "\n" + rest);
    case LeafLine(tag, gap, value, closed) =>
      ReadLeafLine(tag, gap, value, closed, "\n" + rest);
  }

  lemma StartsWithTag(line: Line)
    requires line.Valid()
    ensures ProcessLine(line.Text()) != "" && ProcessLine(line.Text())[0] == '<'
  {
    hide TrimSpace, Find, IsSpace;
    assert line.Text()[0] == '<';
  }

  predicate ReadsAs(text: string, events: seq<Event>) {
    Events(text) == Some(events)
  }

  predicate BalancedText(text: string) {
    Events(text).Some? && Balanced(Events(text).value)
  }

  /** A rewritten body reads as the events of its lines. */
  lemma {:induction false} ReadBody(body: seq<Line>)
    requires ValidBody(body)
    ensures ReadsAs(Written(TextLines(body)), BodyEvents(body))
    ensures body != [] ==> Written(TextLines(body)) != "" && Written(TextLines(body))[0] == '<'
  {
    hide Events, ProcessLine, TextLines, IsSpace, NameChar, ValidTag, ValidValue;
    if body == [] {
      NothingToRead();
    } else {
      ReadBody(body[1..]);
      if body[1..] == [] { NothingToRead(); }
      WrittenFirst(body);
      ReadLine(body[0], Written(TextLines(body[1..])));
      StartsWithTag(body[0]);
    }
  }

  lemma WrittenFirst(body: seq<Line>)
    requires body != []
    ensures Written(TextLines(body)) == ProcessLine(body[0].Text()) + ("\n" + Written(TextLines(body[1..])))
  {
    hide ProcessLine, Line.Text;
    TextsFirst(body);
    hide TextLines;
    var first, rest := body[0].Text(), TextLines(body[1..]);
    assert ([first] + rest)[1..] == rest;
    assert Written([first] + rest) == ProcessLine(first) + "\n" + Written(rest);
    assert ProcessLine(first) + "\n" + Written(rest) == ProcessLine(first) + ("\n" + Written(rest));
  }

  lemma TextsFirst(body: seq<Line>)
    requires body != []
    ensures TextLines(body) == [body[0].Text()] + TextLines(body[1..])
  {
    hide Line.Text;
  }

  lemma NothingToRead()
    ensures Events("") == Some([]) && Written(TextLines([])) == ""
  {
  }

  /* ---------- The rewritten body is the same document ---------- */

  lemma {:induction false} BodyEventsConcat(a: seq<Line>, b: seq<Line>)
    ensures BodyEvents(a + b) == BodyEvents(a) + BodyEvents(b)
  {
    if a == [] {
      assert a + b == b;
    } else {
      assert (a + b)[1..] == a[1..] + b;
      BodyEventsConcat(a[1..], b);
    }
  }

  /** The SGML lines of a forest carry the events of the forest. */
  lemma {:induction false} LinesCarryForest(nodes: seq<Node>)
    ensures BodyEvents(ForestLines(nodes)) == ForestEvents(nodes)
  {
    if nodes != [] {
      LinesCarryNode(nodes[0]);
      LinesCarryForest(nodes[1..]);
      BodyEventsConcat(NodeLines(nodes[0]), ForestLines(nodes[1..]));
    }
  }

  lemma {:induction false} LinesCarryNode(node: Node)
    ensures BodyEvents(NodeLines(node)) == NodeEvents(node)
  {
    match node
    case Leaf(tag, value) =>
      assert BodyEvents([LeafLine(tag, "", value, false)]) == LeafLine(tag, "", value, false).Events() + BodyEvents([]);
    case Aggregate(tag, children) =>
      LinesCarryForest(children);
      BodyEventsConcat([OpenLine(tag)], ForestLines(children));
      BodyEventsConcat([OpenLine(tag)] + ForestLines(children), [CloseLine(tag)]);
      OneLine(OpenLine(tag));
      OneLine(CloseLine(tag));
  }

  lemma OneLine(line: Line)
    ensures BodyEvents([line]) == line.Events()
  {
    assert BodyEvents([line]) == line.Events() + BodyEvents([]);
  }

  /** Reading on after a forest leaves the open elements as they were. */
  lemma {:induction false} ForestNests(open: seq<string>, nodes: seq<Node>, rest: seq<Event>)
    ensures Nested(open, ForestEvents(nodes) + rest) == Nested(open, rest)
    decreases nodes, 0
  {
    if nodes == [] {
      assert ForestEvents(nodes) + rest == rest;
    } else {
      assert ForestEvents(nodes) + rest == NodeEvents(nodes[0]) + (ForestEvents(nodes[1..]) + rest);
      NodeNests(open, nodes[0], ForestEvents(nodes[1..]) + rest);
      ForestNests(open, nodes[1..], rest);
    }
  }

  lemma {:induction false} NodeNests(open: seq<string>, node: Node, rest: seq<Event>)
    ensures Nested(open, NodeEvents(node) + rest) == Nested(open, rest)
    decreases node, 1
  {
    var inner := open + [node.tag];
    assert inner[..|inner| - 1] == open;
    match node
    case Leaf(tag, value) =>
      assert NodeEvents(node) + rest == [Open(tag)] + ([Value(value)] + ([Close(tag)] + rest));
      NestedStep(open, Open(tag), [Value(value)] + ([Close(tag)] + rest));
      NestedStep(inner, Value(value), [Close(tag)] + rest);
      NestedStep(inner, Close(tag), rest);
    case Aggregate(tag, children) =>
      assert NodeEvents(node) + rest == [Open(tag)] + (ForestEvents(children) + ([Close(tag)] + rest));
      NestedStep(open, Open(tag), ForestEvents(children) + ([Close(tag)] + rest));
      ForestNests(inner, children, [Close(tag)] + rest);
      NestedStep(inner, Close(tag), rest);
  }

  lemma NestedStep(open: seq<string>, event: Event, rest: seq<Event>)
    ensures Nested(open, [event] + rest) == if After(open, event).None? then None else Nested(After(open, event).value, rest)
  {
    assert ([event] + rest)[1..] == rest;
  }

  /** Two forests with the same events are the same: the events are the tree with its leaf values in order. */
  lemma {:induction false} EventsDetermineForest(a: seq<Node>, x: seq<Event>, b: seq<Node>, y: seq<Event>)
    requires ForestEvents(a) + x == ForestEvents(b) + y
    requires (x != [] ==> x[0].Close?) && (y != [] ==> y[0].Close?)
    ensures a == b && x == y
    decreases a, 0
  {
    if a == [] {
      EmptyForest(x, b, y);
    } else if b == [] {
      EmptyForest(y, a, x);
    } else {
      hide NodeEvents;
      var p, q := ForestEvents(a[1..]) + x, ForestEvents(b[1..]) + y;
      assert ForestEvents(a) + x == NodeEvents(a[0]) + p && ForestEvents(b) + y == NodeEvents(b[0]) + q;
      EventsDetermineNode(a[0], p, b[0], q);
      EventsDetermineForest(a[1..], x, b[1..], y);
      assert a == [a[0]] + a[1..] && b == [b[0]] + b[1..];
    }
  }

  lemma EmptyForest(x: seq<Event>, b: seq<Node>, y: seq<Event>)
    requires ForestEvents([]) + x == ForestEvents(b) + y && (x != [] ==> x[0].Close?)
    ensures b == [] && x == y
  {
    hide NodeEvents;
    NodeEventsStart(b);
    assert ForestEvents([]) + x == x;
    assert ForestEvents([]) + y == y;
  }

  lemma NodeEventsStart(nodes: seq<Node>)
    ensures nodes != [] ==> ForestEvents(nodes) != [] && ForestEvents(nodes)[0].Open?
    ensures nodes == [] ==> ForestEvents(nodes) == []
  {
    if nodes != [] { assert NodeEvents(nodes[0])[0] == Open(nodes[0].tag); }
  }

  lemma {:induction false} EventsDetermineNode(a: Node, x: seq<Event>, b: Node, y: seq<Event>)
    requires NodeEvents(a) + x == NodeEvents(b) + y
    ensures a == b && x == y
    decreases a, 1
  {
    var s, t := NodeEvents(a) + x, NodeEvents(b) + y;
    assert s[0] == Open(a.tag) && t[0] == Open(b.tag);
    SecondEvent(a, x);
    SecondEvent(b, y);
    if a.Leaf? {
      assert s[1] == Value(a.value) && s[2] == Close(a.tag) && s[3..] == x && t[3..] == y;
    } else {
      var p, q := [Close(a.tag)] + x, [Close(b.tag)] + y;
      assert s[1..] == ForestEvents(a.children) + p && t[1..] == ForestEvents(b.children) + q;
      EventsDetermineForest(a.children, p, b.children, q);
      assert p[1..] == x && q[1..] == y;
    }
  }

  lemma SecondEvent(node: Node, x: seq<Event>)
    ensures var s := NodeEvents(node) + x;
            |s| > 1 && (s[1].Value? <==> node.Leaf?)
  {
    if node.Aggregate? { NodeEventsStart(node.children); }
  }

  lemma {:induction false} PlainEvents(body: seq<Line>)
    requires forall i :: 0 <= i < |body| ==> !Closed(body[i])
    ensures BodyEvents(PlainLines(body)) == BodyEvents(body)
  {
    if body != [] {
      PlainEvents(body[1..]);
      assert PlainLines(body)[1..] == PlainLines(body[1..]);
    }
  }

  predicate Closed(line: Line) {
    line.LeafLine? && line.closed
  }

  function Weight(event: Event): int {
    if event.Open? then 1 else if event.Close? then -1 else 0
  }

  /** Opening minus closing tags. */
  function Depth(events: seq<Event>): int {
    if events == [] then 0 else Weight(events[0]) + Depth(events[1..])
  }

  lemma {:induction false} DepthConcat(a: seq<Event>, b: seq<Event>)
    ensures Depth(a + b) == Depth(a) + Depth(b)
  {
    if a == [] {
      assert a + b == b;
    } else {
      assert (a + b)[1..] == a[1..] + b;
      DepthConcat(a[1..], b);
    }
  }

  lemma {:induction false} NestedDepth(open: seq<string>, events: seq<Event>)
    requires Nested(open, events).Some?
    ensures |Nested(open, events).value| == |open| + Depth(events)
    decreases |events|
  {
    if events != [] { NestedDepth(After(open, events[0]).value, events[1..]); }
  }

  function ClosedCount(body: seq<Line>): (n: nat)
    ensures n == 0 <==> forall i :: 0 <= i < |body| ==> !Closed(body[i])
  {
    if body == [] then 0 else (if Closed(body[0]) then 1 else 0) + ClosedCount(body[1..])
  }

  /** Every leaf that was closed already costs one closing tag too many. */
  lemma {:induction false} ClosedLeavesSink(body: seq<Line>)
    ensures Depth(BodyEvents(body)) == Depth(BodyEvents(PlainLines(body))) - ClosedCount(body)
  {
    if body != [] {
      ClosedLeavesSink(body[1..]);
      assert PlainLines(body)[1..] == PlainLines(body[1..]);
      DepthConcat(body[0].Events(), BodyEvents(body[1..]));
      DepthConcat(body[0].Plain().Events(), BodyEvents(PlainLines(body[1..])));
      LineDepth(body[0]);
    }
  }

  lemma LineDepth(line: Line)
    ensures Depth(line.Events()) == Depth(line.Plain().Events()) - (if Closed(line) then 1 else 0)
  {
    if line.LeafLine? {
      var whole := [Open(line.tag), Value(line.value), Close(line.tag)];
      DepthConcat(whole, if line.closed then [Close(line.tag)] else []);
      DepthConcat(whole, []);
      if line.closed { assert Depth([Close(line.tag)]) == -1 + Depth([]); }
    }
  }

  lemma ForestBalanced(nodes: seq<Node>)
    ensures Balanced(ForestEvents(nodes)) && Depth(ForestEvents(nodes)) == 0
  {
    assert ForestEvents(nodes) + [] == ForestEvents(nodes);
    ForestNests([], nodes, []);
    NestedDepth([], ForestEvents(nodes));
  }

  lemma {:induction false} AllKept(lines: seq<string>)
    requires forall i :: 0 <= i < |lines| ==> !TooLong(lines[i])
    ensures Kept(lines) == lines
  {
    if lines != [] { AllKept(lines[1..]); }
  }

  /** The lines of a file, trimmed and without the blank ones, spell a forest; no line reaches 64 KiB. */
  ghost predicate Spells(data: string, body: seq<Line>, nodes: seq<Node>) {
    && (forall i :: 0 <= i < |Lines(data)| ==> !TooLong(Lines(data)[i]))
    && ValidBody(body) && Content(Lines(data)) == TextLines(body)
    && PlainLines(body) == ForestLines(nodes)
  }

  lemma RewrittenReadsAsBody(data: string, body: seq<Line>, nodes: seq<Node>)
    requires Spells(data, body, nodes)
    ensures ReadsAs(Rewritten(data), BodyEvents(body))
  {
    hide Events, ProcessLine, TooLong, Lines, Content, Written;
    AllKept(Lines(data));
    ReadBody(body);
  }

  /** A file that spells a forest without leaves closed already is rewritten to text that reads as exactly that forest. */
  lemma RewritingKeepsDocument(data: string, body: seq<Line>, nodes: seq<Node>)
    requires Spells(data, body, nodes) && ClosedCount(body) == 0
    ensures ReadsAs(Rewritten(data), ForestEvents(nodes))
  {
    hide Events, Rewritten, Content, Lines;
    RewrittenReadsAsBody(data, body, nodes);
    LinesCarryForest(nodes);
    PlainEvents(body);
  }

  /** The rewritten text is balanced if and only if no leaf was closed already. */
  lemma BalancedIffUnclosed(data: string, body: seq<Line>, nodes: seq<Node>)
    requires Spells(data, body, nodes)
    ensures BalancedText(Rewritten(data)) <==> ClosedCount(body) == 0
  {
    hide Events, Rewritten, Content, Lines, Nested;
    RewrittenReadsAsBody(data, body, nodes);
    LinesCarryForest(nodes);
    ForestBalanced(nodes);
    ClosedLeavesSink(body);
    if ClosedCount(body) == 0 { PlainEvents(body); }
    if Balanced(BodyEvents(body)) { NestedDepth([], BodyEvents(body)); }
  }

  /** From the first line of 64 KiB on, everything is dropped without an error. */
  lemma LongLineTruncates(data: string, k: nat)
    requires k < |Lines(data)| && TooLong(Lines(data)[k]) && forall i :: 0 <= i < k ==> !TooLong(Lines(data)[i])
    ensures Rewritten(data) == Written(Content(Lines(data)[..k]))
  {
    hide TooLong, Lines, Content, Written;
    KeptUpTo(Lines(data), k);
  }

  lemma {:induction false} KeptUpTo(lines: seq<string>, k: nat)
    requires k < |lines| && TooLong(lines[k]) && forall i :: 0 <= i < k ==> !TooLong(lines[i])
    ensures Kept(lines) == lines[..k]
  {
    hide TooLong;
    if k > 0 {
      KeptUpTo(lines[1..], k - 1);
      assert lines[..k] == [lines[0]] + lines[1..][..k - 1];
    }
  }

  /** A file with no leaf closed already spells one forest only. */
  lemma DocumentIsDetermined(data: string, a: seq<Line>, nodes: seq<Node>, b: seq<Line>, others: seq<Node>)
    requires Spells(data, a, nodes) && Spells(data, b, others) && ClosedCount(a) == 0
    ensures nodes == others
  {
    hide Events, Rewritten, Content, Lines, Nested;
    BalancedIffUnclosed(data, a, nodes);
    BalancedIffUnclosed(data, b, others);
    RewritingKeepsDocument(data, a, nodes);
    RewritingKeepsDocument(data, b, others);
    EventsDetermineForest(nodes, [], others, []);
  }
}
