/** Bounded parsed views of command output: the explicit-stack depth check and the line-by-line parse. */
module ParsedViews {
  import opened Wrappers

  type Byte = b: int | 0 <= b < 256

  /** A decoded JSON value; of an object only the member values matter here. */
  datatype Json =
    | Null
    | Bool(value: bool)
    | Integer(n: int)
    | Float(finite: bool)
    | Text(s: string)
    | List(items: seq<Json>)
    | Object(values: seq<Json>)

  // ---------------------------------------------------------------- the depth check

  /** No value lies deeper than `depth` levels below this one, and every float is finite. */
  predicate Bounded(node: Json, depth: int)
    decreases node, 1
  {
    && depth >= 0
    && match node
       case Float(finite) => finite
       case List(items) => AllBounded(items, depth - 1)
       case Object(values) => AllBounded(values, depth - 1)
       case _ => true
  }

  predicate AllBounded(nodes: seq<Json>, depth: int)
    decreases nodes, 0
  {
    nodes == [] || (Bounded(nodes[0], depth) && AllBounded(nodes[1..], depth))
  }

  function Size(node: Json): nat
    decreases node, 1
  {
    match node
    case List(items) => 1 + TotalSize(items)
    case Object(values) => 1 + TotalSize(values)
    case _ => 1
  }

  function TotalSize(nodes: seq<Json>): nat
    decreases nodes, 0
  {
    if nodes == [] then 0 else Size(nodes[0]) + TotalSize(nodes[1..])
  }

  type Stack = seq<(Json, int)>

  function StackSize(stack: Stack): nat {
    if stack == [] then 0 else StackSize(stack[..|stack| - 1]) + Size(stack[|stack| - 1].0)
  }

  ghost predicate StackBounded(stack: Stack, depth: int) {
    forall i :: 0 <= i < |stack| ==> Bounded(stack[i].0, depth - stack[i].1)
  }

  function Push(stack: Stack, nodes: seq<Json>, level: int): Stack
    decreases |nodes|
  {
    if nodes == [] then stack else Push(stack + [(nodes[0], level)], nodes[1..], level)
  }

  lemma {:induction false} PushPreserves(stack: Stack, nodes: seq<Json>, level: int, depth: int)
    ensures StackBounded(Push(stack, nodes, level), depth) <==>
            StackBounded(stack, depth) && AllBounded(nodes, depth - level)
    ensures StackSize(Push(stack, nodes, level)) == StackSize(stack) + TotalSize(nodes)
    decreases |nodes|
  {
    if nodes != [] {
      var next := stack + [(nodes[0], level)];
      assert next[..|stack|] == stack && next[|stack|] == (nodes[0], level);
      assert forall i :: 0 <= i < |stack| ==> next[i] == stack[i];
      PushPreserves(next, nodes[1..], level, depth);
      hide Bounded, Size;
      assert StackBounded(next, depth) <==> StackBounded(stack, depth) && Bounded(nodes[0], depth - level);
    }
  }

  /** Popping a node leaves its bound, and its size, to its children. */
  lemma PopDecides(stack: Stack, depth: int)
    requires stack != []
    ensures
      var (n, (node, level)) := (|stack| - 1, stack[|stack| - 1]);
      && (StackBounded(stack, depth) <==> StackBounded(stack[..n], depth) && Bounded(node, depth - level))
      && StackSize(stack) == StackSize(stack[..n]) + Size(node)
  {
    hide Bounded, Size;
  }

  /** A node is within bounds exactly when it is neither too deep nor infinite and its children are, one level down. */
  lemma NodeDecides(node: Json, depth: int)
    ensures Bounded(node, depth) <==> depth >= 0 && (node.Float? ==> node.finite) && AllBounded(Inner(node), depth - 1)
    ensures Size(node) == 1 + TotalSize(Inner(node))
  {
  }

  function Inner(node: Json): seq<Json> {
    match node
    case List(items) => items
    case Object(values) => values
    case _ => []
  }

  /** The explicit stack decides exactly the recursive bound, on any value and without recursion. */
  method View(value: Json, depth: int) returns (ok: bool)
    ensures ok <==> Bounded(value, depth)
  {
    hide Bounded, AllBounded, Size, TotalSize, StackBounded, StackSize, Push;
    var stack: Stack := [(value, 0)];
    OneNode(value, depth);
    while stack != []
      invariant StackBounded(stack, depth) <==> Bounded(value, depth)
      decreases StackSize(stack)
    {
      PopDecides(stack, depth);
      var n := |stack| - 1;
      var (node, level) := stack[n];
      NodeDecides(node, depth - level);
      stack := stack[..n];
      if level > depth || (node.Float? && !node.finite) {
        return false;
      }
      PushPreserves(stack, Inner(node), level + 1, depth);
      match node
      case Object(values) => stack := Push(stack, values, level + 1);
      case List(items) => stack := Push(stack, items, level + 1);
      case _ => NothingPushed(stack, level + 1);
    }
    EmptyStack(depth);
    ok := true;
  }

  lemma OneNode(value: Json, depth: int)
    ensures StackBounded([(value, 0)], depth) <==> Bounded(value, depth)
  {
    hide Bounded;
    var stack: Stack := [(value, 0)];
    assert stack[0] == (value, 0);
  }

  lemma NothingPushed(stack: Stack, level: int)
    ensures Push(stack, [], level) == stack
  {
  }

  lemma EmptyStack(depth: int)
    ensures StackBounded([], depth)
  {
  }

  // ---------------------------------------------------------------- splitting into lines

  const LF: Byte := 10
  const CR: Byte := 13

  /** Length of the first line, end included: a line ends after LF, after CR LF, after a lone CR, or with the bytes. */
  function FirstLine(raw: seq<Byte>): (n: nat)
    requires raw != []
    ensures 1 <= n <= |raw|
  {
    if raw[0] == LF then 1
    else if raw[0] == CR then if |raw| > 1 && raw[1] == LF then 2 else 1
    else if |raw| == 1 then 1
    else 1 + FirstLine(raw[1..])
  }

  function SplitLines(raw: seq<Byte>): seq<seq<Byte>> {
    if raw == [] then [] else [raw[..FirstLine(raw)]] + SplitLines(raw[FirstLine(raw)..])
  }

  predicate EndsLine(b: Byte) {
    b == LF || b == CR
  }

  /** One line: text without line ends, then at most one line end, which is missing only where `last` allows it. */
  ghost predicate OneLine(line: seq<Byte>, last: bool) {
    exists k :: 0 <= k <= |line| && LineOf(line, k, last)
  }

  predicate LineEnd(tail: seq<Byte>) {
    tail == [LF] || tail == [CR] || tail == [CR, LF]
  }

  ghost predicate LineOf(line: seq<Byte>, k: nat, last: bool)
    requires k <= |line|
  {
    && (forall i :: 0 <= i < k ==> !EndsLine(line[i]))
    && (LineEnd(line[k..]) || (last && k == |line| && line != []))
  }

  lemma {:induction false} FirstLineIsALine(raw: seq<Byte>)
    requires raw != []
    ensures OneLine(raw[..FirstLine(raw)], FirstLine(raw) == |raw|)
  {
    var n := FirstLine(raw);
    var line := raw[..n];
    if EndsLine(raw[0]) {
      assert line[0..] == line && LineEnd(line);
      assert LineOf(line, 0, n == |raw|);
    } else if |raw| == 1 {
      assert LineOf(line, 1, n == |raw|);
    } else {
      FirstLineIsALine(raw[1..]);
      var rest := raw[1..][..FirstLine(raw[1..])];
      assert line == [raw[0]] + rest;
      var k :| 0 <= k <= |rest| && LineOf(rest, k, FirstLine(raw[1..]) == |raw[1..]|);
      assert line[k + 1..] == rest[k..];
      assert LineOf(line, k + 1, n == |raw|);
    }
  }

  /** The lines put together are the bytes. */
  lemma {:induction false} LinesAreTheBytes(raw: seq<Byte>)
    ensures Concat(SplitLines(raw)) == raw
    decreases |raw|
  {
    hide Concat, FirstLine;
    if raw == [] {
      NoBytes();
    } else {
      var n := FirstLine(raw);
      LinesAreTheBytes(raw[n..]);
      ConcatFromFront(raw[..n], SplitLines(raw[n..]));
    }
  }

  /** Each line is one line, and only the last may lack its line end. */
  lemma {:induction false} EachIsALine(raw: seq<Byte>, i: nat)
    requires i < |SplitLines(raw)|
    ensures OneLine(SplitLines(raw)[i], i == |SplitLines(raw)| - 1)
    decreases |raw|
  {
    hide OneLine, FirstLine;
    var n := FirstLine(raw);
    var rest := SplitLines(raw[n..]);
    if i == 0 {
      FirstLineIsALine(raw);
      EndMayBeThere(raw[..n], n == |raw|, rest == []);
    } else {
      EachIsALine(raw[n..], i - 1);
    }
  }

  /** No line end is cut in two: nothing starts with LF right after a part that ends in CR. */
  ghost predicate EndsAreWhole(lines: seq<seq<Byte>>) {
    forall i :: 0 < i < |lines| && lines[i - 1] != [] && lines[i] != [] && lines[i - 1][|lines[i - 1]| - 1] == CR ==>
      lines[i][0] != LF
  }

  /** A sequence of lines, which only the last may leave unended. */
  ghost predicate AreLines(lines: seq<seq<Byte>>) {
    EndsAreWhole(lines) && forall i :: 0 <= i < |lines| ==> OneLine(lines[i], i == |lines| - 1)
  }

  /** There is one way to cut the bytes into lines, and the split is it. */
  lemma SplitDecides(raw: seq<Byte>, lines: seq<seq<Byte>>)
    ensures lines == SplitLines(raw) <==> Concat(lines) == raw && AreLines(lines)
  {
    hide Concat, OneLine, EndsAreWhole, SplitLines;
    LinesAreTheBytes(raw);
    EndsStayWhole(raw);
    forall i | 0 <= i < |SplitLines(raw)| ensures OneLine(SplitLines(raw)[i], i == |SplitLines(raw)| - 1) {
      EachIsALine(raw, i);
    }
    if AreLines(lines) {
      LinesSplitBack(lines);
    }
  }

  lemma {:induction false} FirstLineIsWhole(raw: seq<Byte>)
    requires raw != [] && FirstLine(raw) < |raw| && raw[FirstLine(raw) - 1] == CR
    ensures raw[FirstLine(raw)] != LF
  {
    if !EndsLine(raw[0]) && |raw| > 1 {
      FirstLineIsWhole(raw[1..]);
    }
  }

  lemma {:induction false} EndsStayWhole(raw: seq<Byte>)
    ensures EndsAreWhole(SplitLines(raw))
    decreases |raw|
  {
    if raw != [] {
      var n := FirstLine(raw);
      var line, rest := raw[..n], SplitLines(raw[n..]);
      EndsStayWhole(raw[n..]);
      if n < |raw| && raw[n - 1] == CR {
        FirstLineIsWhole(raw);
        assert rest[0][0] == raw[n];
      }
      hide FirstLine;
      assert SplitLines(raw) == [line] + rest;
      assert forall i :: 0 < i < |SplitLines(raw)| ==> SplitLines(raw)[i] == rest[i - 1];
    }
  }

  /** Whatever follows a line, the first line of the whole is that line. */
  lemma {:induction false} FirstLineOf(line: seq<Byte>, k: nat, rest: seq<Byte>)
    requires k <= |line| && LineOf(line, k, rest == [])
    requires line != [] && rest != [] && line[|line| - 1] == CR ==> rest[0] != LF
    ensures line != [] && FirstLine(line + rest) == |line|
    decreases k
  {
    var whole := line + rest;
    if k > 0 {
      assert line[1..][k - 1..] == line[k..];
      assert whole[1..] == line[1..] + rest;
      if |line| > 1 {
        FirstLineOf(line[1..], k - 1, rest);
      }
    } else {
      assert line[0..] == line;
    }
  }

  lemma {:induction false} LinesSplitBack(lines: seq<seq<Byte>>)
    requires AreLines(lines)
    ensures SplitLines(Concat(lines)) == lines
    ensures lines != [] ==> lines[0] != [] && [lines[0][0]] <= Concat(lines)
  {
    NoBytes();
    if lines != [] {
      var line, rest := lines[0], lines[1..];
      RestAreLines(lines);
      LinesSplitBack(rest);
      ConcatFromFront(line, rest);
      assert lines == [line] + rest;
      assert OneLine(line, 0 == |lines| - 1);
      var k :| 0 <= k <= |line| && LineOf(line, k, 0 == |lines| - 1);
      hide Concat;
      assert Concat(rest) == [] <==> rest == [];
      FirstLineOf(line, k, Concat(rest));
      hide FirstLine;
      assert Concat(lines)[..|line|] == line && Concat(lines)[|line|..] == Concat(rest);
    }
  }

  lemma RestAreLines(lines: seq<seq<Byte>>)
    requires lines != [] && AreLines(lines)
    ensures AreLines(lines[1..])
  {
    hide OneLine;
    var rest := lines[1..];
    forall i | 0 <= i < |rest| ensures OneLine(rest[i], i == |rest| - 1) {
      assert OneLine(lines[i + 1], i + 1 == |lines| - 1);
    }
    forall i | 0 < i < |rest| && rest[i - 1] != [] && rest[i] != [] && rest[i - 1][|rest[i - 1]| - 1] == CR
      ensures rest[i][0] != LF
    {
      assert lines[i + 1 - 1] == rest[i - 1] && lines[i + 1] == rest[i];
    }
  }

  lemma EndMayBeThere(line: seq<Byte>, a: bool, b: bool)
    requires OneLine(line, a) && (a ==> b)
    ensures OneLine(line, b)
  {
    var k :| 0 <= k <= |line| && LineOf(line, k, a);
    assert LineOf(line, k, b);
  }

  lemma ConcatOne(lines: seq<seq<Byte>>, line: seq<Byte>)
    ensures Concat(lines + [line]) == Concat(lines) + line
  {
    assert (lines + [line])[..|lines|] == lines;
  }

  lemma {:induction false} ConcatFromFront(line: seq<Byte>, lines: seq<seq<Byte>>)
    ensures Concat([line] + lines) == line + Concat(lines)
  {
    hide Concat;
    NoBytes();
    if lines == [] {
      ConcatOne([], line);
      assert [] + [line] == [line] + lines;
    } else {
      var front, end := lines[..|lines| - 1], lines[|lines| - 1];
      ConcatFromFront(line, front);
      ConcatOne([line] + front, end);
      ConcatOne(front, end);
      assert [line] + lines == ([line] + front) + [end] && lines == front + [end];
    }
  }

  // ---------------------------------------------------------------- one view a line

  datatype ParsedLine = ParsedLine(line: nat, value: Json)

  /** What is reported of an exception: its type and its message. */
  datatype Error = Error(kind: string, message: string)

  const UNAVAILABLE := Error("ValueError", "bounded non-authoritative parsed view unavailable")

  datatype LineError = LineError(line: nat, byteOffset: nat, error: Error)

  /** Outcome of decoding one line. */
  type Decoder = seq<Byte> -> Result<Json, Error>

  function Concat(lines: seq<seq<Byte>>): seq<Byte> {
    if lines == [] then [] else Concat(lines[..|lines| - 1]) + lines[|lines| - 1]
  }

  /** The view a line deserves: its decoded value, when that is within bounds, or else the reason why not. */
  function ViewOf(decode: Decoder, depth: int, line: seq<Byte>): Result<Json, Error> {
    var value := decode(line);
    if value.Success? && !Bounded(value.value, depth) then Failure(UNAVAILABLE) else value
  }

  /** The view of every good line under its own number, and in order. */
  function GoodLines(decode: Decoder, depth: int, lines: seq<seq<Byte>>): seq<ParsedLine> {
    if lines == [] then []
    else
      var n := |lines| - 1;
      var view := ViewOf(decode, depth, lines[n]);
      GoodLines(decode, depth, lines[..n]) + if view.Success? then [ParsedLine(n + 1, view.value)] else []
  }

  /** Every bad line under its own number, with the reason and the place in the raw output where its bytes start. */
  function BadLines(decode: Decoder, depth: int, lines: seq<seq<Byte>>): seq<LineError> {
    if lines == [] then []
    else
      var n := |lines| - 1;
      var view := ViewOf(decode, depth, lines[n]);
      BadLines(decode, depth, lines[..n]) +
      if view.Failure? then [LineError(n + 1, |Concat(lines[..n])|, view.error)] else []
  }

  /** A bad line is reported and costs no later good one. */
  method ParseLines(raw: seq<Byte>, decode: Decoder, depth: int)
    returns (values: seq<ParsedLine>, errors: seq<LineError>)
    ensures values == GoodLines(decode, depth, SplitLines(raw)) && errors == BadLines(decode, depth, SplitLines(raw))
    ensures forall e :: e in errors ==> Located(raw, SplitLines(raw), e)
  {
    hide SplitLines, Located;
    var lines := SplitLines(raw);
    hide Bounded, Concat;
    values, errors := [], [];
    var offset: nat := 0;
    NoBytes();
    var k := 0;
    while k < |lines|
      invariant 0 <= k <= |lines| && offset == |Concat(lines[..k])|
      invariant values == GoodLines(decode, depth, lines[..k]) && errors == BadLines(decode, depth, lines[..k])
    {
      var line := lines[k];
      var value := decode(line);
      if value.Success? {
        var ok := View(value.value, depth);
        if !ok {
          value := Failure(UNAVAILABLE);
        }
      }
      if value.Success? {
        values := values + [ParsedLine(k + 1, value.value)];
      } else {
        errors := errors + [LineError(k + 1, offset, value.error)];
      }
      assert lines[..k + 1][..k] == lines[..k];
      ConcatGrows(lines, k);
      offset := offset + |line|;
      k := k + 1;
    }
    assert lines[..k] == lines;
    LinesAreTheBytes(raw);
    forall e | e in errors ensures Located(raw, lines, e) {
      ErrorsAreLocated(decode, depth, lines, e);
      LocatedMeans(raw, lines, e);
    }
  }

  /** The reported place is where the failing line's own bytes start in the raw output. */
  ghost predicate Located(raw: seq<Byte>, lines: seq<seq<Byte>>, e: LineError) {
    && 1 <= e.line <= |lines|
    && e.byteOffset + |lines[e.line - 1]| <= |raw|
    && raw[e.byteOffset..e.byteOffset + |lines[e.line - 1]|] == lines[e.line - 1]
  }

  lemma LocatedMeans(raw: seq<Byte>, lines: seq<seq<Byte>>, e: LineError)
    ensures Located(raw, lines, e) <==>
            && 1 <= e.line <= |lines|
            && e.byteOffset + |lines[e.line - 1]| <= |raw|
            && raw[e.byteOffset..e.byteOffset + |lines[e.line - 1]|] == lines[e.line - 1]
  {
  }

  lemma NoBytes()
    ensures Concat([]) == []
  {
  }

  lemma ConcatGrows(lines: seq<seq<Byte>>, k: nat)
    requires k < |lines|
    ensures Concat(lines[..k + 1]) == Concat(lines[..k]) + lines[k]
  {
    assert lines[..k + 1][..k] == lines[..k];
  }

  lemma {:induction false} ConcatPrefix(lines: seq<seq<Byte>>, k: nat)
    requires k <= |lines|
    ensures Concat(lines[..k]) <= Concat(lines)
    decreases |lines| - k
  {
    if k == |lines| {
      assert lines[..k] == lines;
    } else {
      ConcatPrefix(lines, k + 1);
      ConcatGrows(lines, k);
    }
  }

  /** A reported offset, line number and the raw output lead straight back to the line that failed. */
  lemma {:induction false} ErrorsAreLocated(decode: Decoder, depth: int, lines: seq<seq<Byte>>, e: LineError)
    requires e in BadLines(decode, depth, lines)
    ensures 1 <= e.line <= |lines|
    ensures ViewOf(decode, depth, lines[e.line - 1]) == Failure(e.error)
    ensures e.byteOffset + |lines[e.line - 1]| <= |Concat(lines)|
    ensures Concat(lines)[e.byteOffset..e.byteOffset + |lines[e.line - 1]|] == lines[e.line - 1]
  {
    hide ViewOf;
    var n := |lines| - 1;
    if e in BadLines(decode, depth, lines[..n]) {
      ErrorsAreLocated(decode, depth, lines[..n], e);
      ConcatPrefix(lines, n);
      hide *;
      var before, whole := Concat(lines[..n]), Concat(lines);
      assert whole[..|before|] == before;
      assert before[e.byteOffset..e.byteOffset + |lines[e.line - 1]|] ==
             whole[e.byteOffset..e.byteOffset + |lines[e.line - 1]|];
    } else {
      ConcatGrows(lines, n);
      assert lines[..n + 1] == lines;
    }
  }

  /** Each line shows up under its own number, as a view or as an error, and no line shows up twice. */
  lemma {:induction false} EveryLineOnce(decode: Decoder, depth: int, lines: seq<seq<Byte>>, k: nat)
    requires k < |lines|
    ensures |GoodLines(decode, depth, lines)| + |BadLines(decode, depth, lines)| == |lines|
    ensures
      var view := ViewOf(decode, depth, lines[k]);
      if view.Success? then ParsedLine(k + 1, view.value) in GoodLines(decode, depth, lines)
      else LineError(k + 1, |Concat(lines[..k])|, view.error) in BadLines(decode, depth, lines)
  {
    hide ViewOf, Concat;
    var n := |lines| - 1;
    if n == 0 {
      assert lines[..0] == [];
    } else {
      EveryLineOnce(decode, depth, lines[..n], if k < n then k else 0);
      if k < n {
        assert lines[..n][..k] == lines[..k];
      }
    }
  }

  /** A view that is reported is the view of the line whose number it carries. */
  lemma {:induction false} ViewsAreTrue(decode: Decoder, depth: int, lines: seq<seq<Byte>>, v: ParsedLine)
    requires v in GoodLines(decode, depth, lines)
    ensures 1 <= v.line <= |lines| && ViewOf(decode, depth, lines[v.line - 1]) == Success(v.value)
  {
    hide ViewOf;
    var n := |lines| - 1;
    if v in GoodLines(decode, depth, lines[..n]) {
      ViewsAreTrue(decode, depth, lines[..n], v);
    }
  }
}
