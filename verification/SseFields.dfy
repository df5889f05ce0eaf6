/** Events of several lines, as section 9.2.6 of the WHATWG HTML Living Standard has them:
    data fields with or without the padding space, other fields and comments, in any order,
    with either line ending. */
module SseFields {
  import opened Prelude
  import opened Text
  import opened SseFraming
  import opened SseStream
  import opened SseRoundTrip

  /** One line of an event: a data field, or any other field or comment, as written. */
  datatype Field =
    | Value(value: string, padded: bool)
    | Other(text: string)

  datatype Block = Block(fields: seq<Field>, framing: Framing)

  function Ending(framing: Framing): string {
    if framing.Lf? then "\n" else "\r\n"
  }

  function Written(f: Field): string {
    match f
    case Value(value, padded) => "data:" + (if padded then " " else "") + value
    case Other(text) => text
  }

  /** Every line with its ending, then the empty line that ends the event. */
  function EncodeFields(fields: seq<Field>, framing: Framing): string {
    if fields == [] then Ending(framing) else Written(fields[0]) + Ending(framing) + EncodeFields(fields[1..], framing)
  }

  function EncodeBlock(b: Block): string {
    EncodeFields(b.fields, b.framing)
  }

  function EncodeBlocks(blocks: seq<Block>): string {
    FlatMap(EncodeBlock, blocks)
  }

  /** A line that is one line: no line feed in it, no carriage return at its end. */
  predicate Clean(line: string) {
    line != "" && OneLine(line) && line[|line| - 1] != '\r'
  }

  predicate Proper(f: Field) {
    Clean(Written(f)) && (f.Other? ==> !IsWhitespace(f.text[0]) && !("data:" <= f.text))
  }

  ghost predicate ProperBlock(b: Block) {
    b.fields != [] && forall i :: 0 <= i < |b.fields| ==> Proper(b.fields[i])
  }

  ghost predicate ProperBlocks(blocks: seq<Block>) {
    forall i :: 0 <= i < |blocks| ==> ProperBlock(blocks[i])
  }

  // ---- Where the event ends ----

  lemma NoDelimiterBefore(line: string, framing: Framing, rest: string, b: Boundary)
    requires Clean(line) && rest != "" && rest[0] != '\n' && !("\r\n" <= rest)
    requires Delimits(line + Ending(framing) + rest, b)
    ensures |line| + |Ending(framing)| <= b.start
  {
    var s, n := line + Ending(framing) + rest, |line| + |Ending(framing)|;
    DelimiterLetters(s, b);
    assert forall i :: 0 <= i < |line| ==> s[i] == line[i];
    assert forall i :: 0 <= i < |rest| ==> s[n + i] == rest[i];
    assert s[n - 1] == '\n';
    if b.length == 4 && b.start < n {
      assert false;
    }
  }

  function Shifted(found: Option<Boundary>, n: nat): Option<Boundary> {
    if found.Some? then Some(Boundary(found.value.start + n, found.value.length)) else None
  }

  lemma DelimitsAfter(head: string, rest: string, b: Boundary)
    ensures Delimits(rest, b) <==> Delimits(head + rest, Boundary(b.start + |head|, b.length))
  {
    if b.start + b.length <= |rest| {
      assert (head + rest)[b.start + |head|..b.start + |head| + b.length] == rest[b.start..b.start + b.length];
    }
  }

  lemma EarliestFound(s: string, p: Boundary)
    requires Delimits(s, p) && forall b :: Delimits(s, b) ==> p.start <= b.start
    ensures FindSseBoundary(s) == Some(p)
  {
    BoundaryIsEarliest(s, p);
    DelimiterLetters(s, p);
    DelimiterLetters(s, FindSseBoundary(s).value);
  }

  /** Text in front in which no delimiter starts only moves the boundary. */
  lemma BoundaryShifts(head: string, rest: string, p: Boundary)
    requires FindSseBoundary(rest) == Some(p)
    requires forall b :: Delimits(head + rest, b) ==> |head| <= b.start
    ensures FindSseBoundary(head + rest) == Some(Boundary(p.start + |head|, p.length))
  {
    BoundaryIsEarliest(rest, p);
    DelimitsAfter(head, rest, p);
    forall b | Delimits(head + rest, b)
      ensures p.start + |head| <= b.start
    {
      var back := Boundary(b.start - |head|, b.length);
      DelimitsAfter(head, rest, back);
      BoundaryIsEarliest(rest, back);
    }
    EarliestFound(head + rest, Boundary(p.start + |head|, p.length));
  }

  /** So a complete line does. */
  lemma SkipLine(line: string, framing: Framing, rest: string)
    requires Clean(line) && rest != "" && rest[0] != '\n' && !("\r\n" <= rest)
    requires FindSseBoundary(rest).Some?
    ensures FindSseBoundary(line + Ending(framing) + rest)
            == Shifted(FindSseBoundary(rest), |line| + |Ending(framing)|)
  {
    forall b | Delimits(line + Ending(framing) + rest, b)
      ensures |line + Ending(framing)| <= b.start
    {
      NoDelimiterBefore(line, framing, rest, b);
    }
    BoundaryShifts(line + Ending(framing), rest, FindSseBoundary(rest).value);
  }

  /** The text of the event, without the ending of its last line and the empty line. */
  function Body(fields: seq<Field>, framing: Framing): string
    requires fields != []
  {
    if |fields| == 1 then Written(fields[0])
    else Written(fields[0]) + Ending(framing) + Body(fields[1..], framing)
  }

  lemma StartsClean(line: string, more: string)
    requires Clean(line)
    ensures line + more != "" && (line + more)[0] != '\n' && !("\r\n" <= line + more)
  {
    assert (line + more)[0] == line[0];
    if |line| > 1 {
      assert (line + more)[1] == line[1];
    }
  }

  lemma {:induction false} EncodedAsBody(fields: seq<Field>, framing: Framing)
    requires fields != []
    ensures EncodeFields(fields, framing) == Body(fields, framing) + Delimiter(framing)
    decreases |fields|
  {
    assert Ending(framing) + Ending(framing) == Delimiter(framing);
    if |fields| == 1 {
      assert EncodeFields(fields[1..], framing) == Ending(framing);
      Associative(Written(fields[0]), Ending(framing), Ending(framing));
    } else {
      EncodedAsBody(fields[1..], framing);
      Associative(Written(fields[0]) + Ending(framing), Body(fields[1..], framing), Delimiter(framing));
    }
  }

  lemma BodyFirst(fields: seq<Field>, framing: Framing, more: string)
    requires |fields| > 1
    ensures Body(fields, framing) + more
            == Written(fields[0]) + Ending(framing) + (Body(fields[1..], framing) + more)
    ensures |Body(fields, framing)| == |Written(fields[0])| + |Ending(framing)| + |Body(fields[1..], framing)|
  {
    Associative(Written(fields[0]) + Ending(framing), Body(fields[1..], framing), more);
  }

  /** `end` is the delimiter and whatever follows it. */
  lemma {:induction false} BoundaryOfBody(fields: seq<Field>, framing: Framing, end: string)
    requires fields != [] && forall i :: 0 <= i < |fields| ==> Proper(fields[i])
    requires Delimiter(framing) <= end
    ensures FindSseBoundary(Body(fields, framing) + end)
            == Some(Boundary(|Body(fields, framing)|, |Delimiter(framing)|))
    decreases |fields|
  {
    if |fields| == 1 {
      var more := end[|Delimiter(framing)|..];
      assert end == Delimiter(framing) + more;
      Associative(Written(fields[0]), Delimiter(framing), more);
      BoundaryOfLine(Written(fields[0]), framing, more);
    } else {
      BoundaryOfBody(fields[1..], framing, end);
      BodyStarts(fields[1..], framing, end);
      SkipLine(Written(fields[0]), framing, Body(fields[1..], framing) + end);
      BodyFirst(fields, framing, end);
    }
  }

  lemma BodyStarts(fields: seq<Field>, framing: Framing, more: string)
    requires fields != [] && Proper(fields[0])
    ensures var s := Body(fields, framing) + more; s != "" && s[0] != '\n' && !("\r\n" <= s)
  {
    var line := Written(fields[0]);
    if |fields| == 1 {
      StartsClean(line, more);
    } else {
      var rest := Ending(framing) + Body(fields[1..], framing) + more;
      assert Body(fields, framing) + more == line + rest;
      StartsClean(line, rest);
    }
  }

  lemma DrainBlock(b: Block, more: string)
    requires ProperBlock(b)
    ensures Drain(EncodeBlock(b) + more)
            == Drained(EventPayloads(Body(b.fields, b.framing)) + Drain(more).payloads, Drain(more).rest)
  {
    var body, delimiter := Body(b.fields, b.framing), Delimiter(b.framing);
    EncodedAsBody(b.fields, b.framing);
    BoundaryOfBody(b.fields, b.framing, delimiter + more);
    Associative(body, delimiter, more);
    var s := body + (delimiter + more);
    assert s[..|body|] == body && s[|body| + |delimiter|..] == more;
  }

  // ---- What one event carries ----

  /** A field and whether it is the last of its event, whose trailing whitespace is trimmed. */
  datatype Cell = Cell(field: Field, last: bool)

  function Cells(fields: seq<Field>): seq<Cell> {
    seq(|fields|, i requires 0 <= i < |fields| => Cell(fields[i], i == |fields| - 1))
  }

  function BlockCells(b: Block): seq<Cell> {
    Cells(b.fields)
  }

  /** What arrives of one line. */
  function Arrives(c: Cell): seq<string> {
    LinePayload(if c.last then TrimEnd(Written(c.field)) else Written(c.field))
  }

  function SentValue(c: Cell): seq<string> {
    if c.field.Value? then [c.field.value] else []
  }

  lemma {:induction false} TrimEndLast(a: string, b: string)
    requires TrimEnd(b) != ""
    ensures TrimEnd(a + b) == a + TrimEnd(b)
    decreases |b|
  {
    if IsWhitespace(b[|b| - 1]) {
      assert (a + b)[..|a + b| - 1] == a + b[..|b| - 1];
      TrimEndLast(a, b[..|b| - 1]);
    }
  }

  lemma WrittenStands(f: Field)
    requires Proper(f)
    ensures !IsWhitespace(Written(f)[0]) && TrimEnd(Written(f)) != ""
  {
    var line := Written(f);
    assert f.Value? ==> line[0] == 'd';
    TrimEndSpec(line);
  }

  /** The event's text with the last line's trailing whitespace gone. */
  function TrimmedBody(fields: seq<Field>, framing: Framing): string
    requires fields != []
  {
    if |fields| == 1 then TrimEnd(Written(fields[0]))
    else Written(fields[0]) + Ending(framing) + TrimmedBody(fields[1..], framing)
  }

  lemma {:induction false} BodyTrimmed(fields: seq<Field>, framing: Framing)
    requires fields != [] && forall i :: 0 <= i < |fields| ==> Proper(fields[i])
    ensures TrimEnd(Body(fields, framing)) == TrimmedBody(fields, framing) != ""
    decreases |fields|
  {
    if |fields| == 1 {
      WrittenStands(fields[0]);
    } else {
      BodyTrimmed(fields[1..], framing);
      TrimEndLast(Written(fields[0]) + Ending(framing), Body(fields[1..], framing));
    }
  }

  lemma WholeTrimmed(fields: seq<Field>, framing: Framing)
    requires fields != [] && forall i :: 0 <= i < |fields| ==> Proper(fields[i])
    ensures Trim(Body(fields, framing)) == TrimmedBody(fields, framing)
  {
    BodyTrimmed(fields, framing);
    WrittenStands(fields[0]);
    var body := Body(fields, framing);
    assert body[0] == Written(fields[0])[0];
  }

  lemma PayloadsOfLast(f: Field)
    requires Proper(f)
    ensures Payloads(TrimEnd(Written(f))) == Arrives(Cell(f, true))
  {
    var end := TrimEnd(Written(f));
    WrittenStands(f);
    TrimEndSpec(Written(f));
    LinesOfOneLine(end);
    FlatMapOne(LinePayload, end);
  }

  lemma PayloadsOfMore(f: Field, framing: Framing, rest: string)
    requires Proper(f)
    ensures Payloads(Written(f) + Ending(framing) + rest) == Arrives(Cell(f, false)) + Payloads(rest)
  {
    var line := Written(f);
    FirstJoined(line, Ending(framing), rest);
    assert ([line] + Lines(rest))[1..] == Lines(rest);
  }

  lemma ArriveInTurn(fields: seq<Field>)
    requires fields != []
    ensures FlatMap(Arrives, Cells(fields))
            == Arrives(Cell(fields[0], |fields| == 1)) + FlatMap(Arrives, Cells(fields[1..]))
  {
    var cells := Cells(fields);
    assert cells[1..] == Cells(fields[1..]);
  }

  lemma {:induction false} PayloadsOfBody(fields: seq<Field>, framing: Framing)
    requires fields != [] && forall i :: 0 <= i < |fields| ==> Proper(fields[i])
    ensures Payloads(TrimmedBody(fields, framing)) == FlatMap(Arrives, Cells(fields))
    decreases |fields|
  {
    ArriveInTurn(fields);
    if |fields| == 1 {
      PayloadsOfLast(fields[0]);
      assert Cells(fields[1..]) == [];
    } else {
      PayloadsOfMore(fields[0], framing, TrimmedBody(fields[1..], framing));
      PayloadsOfBody(fields[1..], framing);
    }
  }

  lemma {:induction false} DrainBlocks(blocks: seq<Block>)
    requires ProperBlocks(blocks)
    ensures Drain(EncodeBlocks(blocks)) == Drained(FlatMap(Arrives, FlatMap(BlockCells, blocks)), "")
    decreases |blocks|
  {
    if blocks == [] {
      assert FindSseBoundary("").None?;
    } else {
      var b, rest := blocks[0], blocks[1..];
      DrainBlocks(rest);
      DrainBlock(b, EncodeBlocks(rest));
      WholeTrimmed(b.fields, b.framing);
      PayloadsOfBody(b.fields, b.framing);
      FlatMapAppend(Arrives, BlockCells(b), FlatMap(BlockCells, rest));
    }
  }

  // ---- Exactly which values arrive ----

  /** A value that arrives as it was sent: not blank, not the end-of-stream marker, not
      beginning with a space that would be taken for padding, and, on the last line of its
      event, not ending in whitespace. */
  predicate Deliverable(c: Cell) {
    c.field.Value? ==>
      var v := c.field.value;
      && (exists i :: 0 <= i < |v| && !IsWhitespace(v[i]))
      && v != "[DONE]"
      && (!c.field.padded ==> v[0] != ' ')
      && (c.last ==> !IsWhitespace(v[|v| - 1]))
  }

  lemma OtherCarriesNothing(c: Cell)
    requires c.field.Other? && Proper(c.field)
    ensures Arrives(c) == []
  {
    TrimEndSpec(c.field.text);
  }

  /** What is left of a data line after its field name. */
  lemma ValueLine(v: string, padded: bool, last: bool)
    ensures var c := Cell(Value(v, padded), last);
            var data := (if padded then " " else "") + v;
            var rest := if last then TrimEnd(data) else data;
            Arrives(c) == if !Blank(Unpadded(rest)) && Unpadded(rest) != DONE then [Unpadded(rest)] else []
  {
    var data := (if padded then " " else "") + v;
    var rest := if last then TrimEnd(data) else data;
    assert Written(Value(v, padded)) == FIELD + data by { Associative("data:", if padded then " " else "", v); }
    if last {
      TrimEndAppend(FIELD, data);
    }
    assert (FIELD + rest)[|FIELD|..] == rest;
  }

  lemma DeliverableMeans(c: Cell)
    requires c.field.Value?
    ensures var v := c.field.value;
            Deliverable(c) <==>
            && !Blank(v) && v != DONE && (!c.field.padded ==> !(" " <= v)) && (c.last ==> TrimEnd(v) == v)
  {
    BlankIff(c.field.value);
    TrimEndSpec(c.field.value);
  }

  lemma PlainArrives(v: string, last: bool)
    ensures Arrives(Cell(Value(v, false), last)) == [v] <==> Deliverable(Cell(Value(v, false), last))
  {
    var rest := if last then TrimEnd(v) else v;
    ValueLine(v, false, last);
    assert "" + v == v;
    DeliverableMeans(Cell(Value(v, false), last));
    TrimEndSpec(v);
    assert |Unpadded(rest)| <= |rest| <= |v|;
  }

  lemma PaddedArrives(v: string, last: bool)
    ensures Arrives(Cell(Value(v, true), last)) == [v] <==> Deliverable(Cell(Value(v, true), last))
  {
    ValueLine(v, true, last);
    DeliverableMeans(Cell(Value(v, true), last));
    assert Unpadded(" " + v) == v;
    PaddedEnd(v);
  }

  lemma PaddedEnd(v: string)
    ensures Unpadded(TrimEnd(" " + v)) == TrimEnd(v)
  {
    TrimEndSpec(v);
    if TrimEnd(v) == "" {
      assert forall i :: 0 <= i < |v| ==> IsWhitespace(v[i]);
      assert forall i :: 0 <= i < |" " + v| ==> IsWhitespace((" " + v)[i]);
      TrimEndSpec(" " + v);
    } else {
      PaddedTrim(v);
      assert Unpadded(" " + TrimEnd(v)) == TrimEnd(v);
    }
  }

  lemma CellArrives(c: Cell)
    requires Proper(c.field)
    ensures Arrives(c) == SentValue(c) <==> Deliverable(c)
    ensures |Arrives(c)| <= |SentValue(c)|
  {
    match c.field
    case Other(_) => OtherCarriesNothing(c);
    case Value(v, padded) =>
      if padded {
        PaddedArrives(v, c.last);
      } else {
        PlainArrives(v, c.last);
      }
      ValueLine(v, padded, c.last);
  }

  ghost predicate ProperCells(cells: seq<Cell>) {
    forall c :: c in cells ==> Proper(c.field)
  }

  ghost predicate DeliverableCells(cells: seq<Cell>) {
    forall c :: c in cells ==> Deliverable(c)
  }

  lemma {:induction false} NoMoreArrive(cells: seq<Cell>)
    requires ProperCells(cells)
    ensures |FlatMap(Arrives, cells)| <= |FlatMap(SentValue, cells)|
    decreases |cells|
  {
    if cells != [] {
      CellArrives(cells[0]);
      NoMoreArrive(cells[1..]);
    }
  }

  lemma {:induction false} AllArriveIff(cells: seq<Cell>)
    requires ProperCells(cells)
    ensures FlatMap(Arrives, cells) == FlatMap(SentValue, cells) <==> DeliverableCells(cells)
    decreases |cells|
  {
    if cells != [] {
      var c, rest := cells[0], cells[1..];
      assert cells == [c] + rest;
      CellArrives(c);
      NoMoreArrive(rest);
      AllArriveIff(rest);
      var arrived, sent := FlatMap(Arrives, rest), FlatMap(SentValue, rest);
      if Arrives(c) + arrived == SentValue(c) + sent {
        assert |Arrives(c)| == |SentValue(c)|;
        assert Arrives(c) == (Arrives(c) + arrived)[..|SentValue(c)|] == SentValue(c);
        assert arrived == (Arrives(c) + arrived)[|SentValue(c)|..] == sent;
      }
    }
  }

  ghost predicate DeliverableBlock(b: Block) {
    forall i :: 0 <= i < |b.fields| ==> Deliverable(Cell(b.fields[i], i == |b.fields| - 1))
  }

  ghost predicate AllDeliverable(blocks: seq<Block>) {
    forall b :: b in blocks ==> DeliverableBlock(b)
  }

  lemma CellsOfBlock(b: Block)
    requires ProperBlock(b)
    ensures ProperCells(BlockCells(b))
    ensures DeliverableCells(BlockCells(b)) <==> DeliverableBlock(b)
  {
    var cells := BlockCells(b);
    if DeliverableCells(cells) {
      forall i | 0 <= i < |b.fields|
        ensures Deliverable(Cell(b.fields[i], i == |b.fields| - 1))
      {
        assert cells[i] in cells;
      }
    }
  }

  lemma {:induction false} CellsOfBlocks(blocks: seq<Block>)
    requires ProperBlocks(blocks)
    ensures ProperCells(FlatMap(BlockCells, blocks))
    ensures AllDeliverable(blocks) <==> DeliverableCells(FlatMap(BlockCells, blocks))
    decreases |blocks|
  {
    if blocks != [] {
      var b, rest := blocks[0], blocks[1..];
      assert blocks == [b] + rest;
      CellsOfBlocks(rest);
      CellsOfBlock(b);
    }
  }

  /** The values of every data field, in order. */
  function ValuesSent(blocks: seq<Block>): seq<string> {
    FlatMap(SentValue, FlatMap(BlockCells, blocks))
  }

  /** What a receiver may expect of one line: nothing of other fields and comments; of a data
      field its value, without the trailing whitespace of the event's last line and without
      one leading space if there was no padding, unless that is blank or ends the stream. */
  function Expected(c: Cell): seq<string> {
    match c.field
    case Other(_) => []
    case Value(value, padded) =>
      var whole := if c.last then TrimEnd(value) else value;
      var v := if !padded && whole != "" && whole[0] == ' ' then whole[1..] else whole;
      Substance(v)
  }

  function Substance(v: string): seq<string> {
    if v == "[DONE]" || AllWhitespace(v) then [] else [v]
  }

  lemma SubstanceOf(v: string)
    ensures Substance(v) == if !Blank(v) && v != DONE then [v] else []
  {
    BlankIff(v);
  }

  lemma UnpaddedMeans(s: string)
    ensures Unpadded(s) == if s != "" && s[0] == ' ' then s[1..] else s
  {
  }

  lemma PaddedExpected(value: string, last: bool)
    ensures Arrives(Cell(Value(value, true), last)) == Expected(Cell(Value(value, true), last))
  {
    ValueLine(value, true, last);
    PaddedEnd(value);
    assert Unpadded(" " + value) == value;
    SubstanceOf(if last then TrimEnd(value) else value);
  }

  lemma PlainExpected(value: string, last: bool)
    ensures Arrives(Cell(Value(value, false), last)) == Expected(Cell(Value(value, false), last))
  {
    var whole := if last then TrimEnd(value) else value;
    ValueLine(value, false, last);
    assert "" + value == value;
    UnpaddedMeans(whole);
    SubstanceOf(Unpadded(whole));
  }

  lemma ArrivesAsExpected(c: Cell)
    requires Proper(c.field)
    ensures Arrives(c) == Expected(c)
  {
    match c.field
    case Other(_) => OtherCarriesNothing(c);
    case Value(value, padded) =>
      assert c == Cell(Value(value, padded), c.last);
      if padded {
        PaddedExpected(value, c.last);
      } else {
        PlainExpected(value, c.last);
      }
  }

  lemma {:induction false} AllAsExpected(cells: seq<Cell>)
    requires ProperCells(cells)
    ensures FlatMap(Arrives, cells) == FlatMap(Expected, cells)
    decreases |cells|
  {
    if cells != [] {
      ArrivesAsExpected(cells[0]);
      AllAsExpected(cells[1..]);
    }
  }

  /** A stream of events of any number of lines decodes, line by line and in order, to what
      may be expected of each line, with nothing left over. */
  lemma FieldsDecode(blocks: seq<Block>)
    requires ProperBlocks(blocks)
    ensures Drain(EncodeBlocks(blocks)) == Drained(FlatMap(Expected, FlatMap(BlockCells, blocks)), "")
  {
    DrainBlocks(blocks);
    CellsOfBlocks(blocks);
    AllAsExpected(FlatMap(BlockCells, blocks));
  }

  /** A stream of events of any number of lines decodes to exactly the values of its data
      fields, in order, with nothing left over, if and only if every value is deliverable. */
  lemma FieldsRoundTripIff(blocks: seq<Block>)
    requires ProperBlocks(blocks)
    ensures Drain(EncodeBlocks(blocks)).rest == ""
    ensures Drain(EncodeBlocks(blocks)).payloads == ValuesSent(blocks) <==> AllDeliverable(blocks)
  {
    DrainBlocks(blocks);
    CellsOfBlocks(blocks);
    AllArriveIff(FlatMap(BlockCells, blocks));
  }

  /** End to end, however the transport cuts the text and wherever it fails. */
  lemma FieldsDeliveredHoweverCut(blocks: seq<Block>, arrivals: seq<Event>)
    requires ProperBlocks(blocks) && AllDeliverable(blocks)
    requires Carried(arrivals) == EncodeBlocks(blocks) && WithinCap("", arrivals)
    ensures FlatMap(PayloadOf, Scan("", arrivals).items) == ValuesSent(blocks)
    ensures Scan("", arrivals).buf == ""
  {
    assert FindSseBoundary("").None?;
    CutsDoNotMatter("", arrivals);
    assert "" + Carried(arrivals) == EncodeBlocks(blocks);
    FieldsRoundTripIff(blocks);
  }
}
