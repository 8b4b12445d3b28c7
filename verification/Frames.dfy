/** The wire form of an event (internal/sse/hub.go) against the receiver that has to read
    it back: the event-stream rules of sections 9.2.5 and 9.2.6 of the WHATWG HTML Living
    Standard. */
module Frames {
  import opened Base
  import opened EventIds
  import opened Rings

  // ----- Writing -----

  predicate Single(s: string) { forall i :: 0 <= i < |s| ==> s[i] != '\r' && s[i] != '\n' }

  predicate FreeOf(s: string, c: char) { forall i :: 0 <= i < |s| ==> s[i] != c }

  /** bytes.Split at line feeds: always at least one piece. */
  function Split(s: string): (lines: seq<string>)
    ensures lines != []
  {
    if s == [] then [""]
    else
      var rest := Split(s[1..]);
      if s[0] == '\n' then [""] + rest else [[s[0]] + rest[0]] + rest[1..]
  }

  function TrimCR(line: string): string {
    if line != [] && line[|line| - 1] == '\r' then line[..|line| - 1] else line
  }

  datatype FieldName = Id | Name | Data {
    function Tag(): string {
      match this
      case Id => "id"
      case Name => "event"
      case Data => "data"
    }
  }

  function Line(field: FieldName, value: string): string { field.Tag() + ": " + value }

  function DataLines(pieces: seq<string>): seq<string> {
    seq(|pieces|, i requires 0 <= i < |pieces| => Line(Data, TrimCR(pieces[i])))
  }

  /** The lines of a frame: the id, the event name, one data line per payload line, a blank. */
  function FrameLines(ev: Event): seq<string> {
    [Line(Id, Print(ev.id)), Line(Name, ev.name)] + DataLines(Split(ev.data)) + [""]
  }

  /** Lines, each ended by a line feed. */
  function Ended(lines: seq<string>): string {
    if lines == [] then "" else lines[0] + ("\n" + Ended(lines[1..]))
  }

  function FrameOf(ev: Event): string { Ended(FrameLines(ev)) }

  lemma {:induction false} EndedSnoc(lines: seq<string>, line: string)
    ensures Ended(lines + [line]) == Ended(lines) + (line + "\n")
  {
    if lines == [] {
      assert ([] + [line])[1..] == [];
      assert line + ("\n" + "") == "" + (line + "\n");
    } else {
      EndedSnoc(lines[1..], line);
      assert (lines + [line])[1..] == lines[1..] + [line];
      assert lines[0] + ("\n" + (Ended(lines[1..]) + (line + "\n"))) == Ended(lines) + (line + "\n");
    }
  }

  lemma EndedTwo(a: string, b: string)
    ensures Ended([a, b]) == "" + (a + "\n") + (b + "\n")
  {
    assert [] + [a] == [a] && [a] + [b] == [a, b];
    EndedSnoc([], a);
    EndedSnoc([a], b);
  }

  lemma EndedBlank(lines: seq<string>)
    ensures Ended(lines + [""]) == Ended(lines) + "\n"
  {
    EndedSnoc(lines, "");
    assert "" + "\n" == "\n";
  }

  lemma DataLinesSnoc(head: seq<string>, pieces: seq<string>, i: nat)
    requires i < |pieces|
    ensures Ended(head + DataLines(pieces)[..i + 1]) == Ended(head + DataLines(pieces)[..i]) + (Line(Data, TrimCR(pieces[i])) + "\n")
  {
    var line := Line(Data, TrimCR(pieces[i]));
    assert (head + DataLines(pieces)[..i]) + [line] == head + DataLines(pieces)[..i + 1];
    EndedSnoc(head + DataLines(pieces)[..i], line);
  }

  /** Builds one frame line by line, as the hub writes it. */
  method WriteFrame(ev: Event) returns (frame: string)
    ensures frame == FrameOf(ev)
  {
    var idLine, nameLine := Line(Id, Print(ev.id)), Line(Name, ev.name);
    ghost var head := [idLine, nameLine];
    EndedTwo(idLine, nameLine);
    frame := "" + (idLine + "\n") + (nameLine + "\n");
    var pieces := Split(ev.data);
    assert head + DataLines(pieces)[..0] == head;
    for i := 0 to |pieces|
      invariant frame == Ended(head + DataLines(pieces)[..i])
    {
      DataLinesSnoc(head, pieces, i);
      frame := frame + (Line(Data, TrimCR(pieces[i])) + "\n");
    }
    assert DataLines(pieces)[..|pieces|] == DataLines(pieces);
    EndedBlank(head + DataLines(pieces));
    frame := frame + "\n";
  }

  // ----- Reading -----

  datatype Dispatched = Dispatched(lastId: string, name: string, data: string)

  datatype Reader = Reader(lastId: string, name: string, data: string, out: seq<Dispatched>)

  const FRESH_READER := Reader("", "", "", [])

  /** The end of the first line: the first CR or LF, or |s|. */
  function LineEnd(s: string): (i: nat)
    ensures i <= |s| && Single(s[..i]) && (i < |s| ==> s[i] == '\r' || s[i] == '\n')
  {
    if s == [] || s[0] == '\r' || s[0] == '\n' then 0 else 1 + LineEnd(s[1..])
  }

  function Colon(line: string): (i: nat)
    ensures i <= |line| && (i < |line| ==> line[i] == ':') && forall k :: 0 <= k < i ==> line[k] != ':'
  {
    if line == [] || line[0] == ':' then 0 else 1 + Colon(line[1..])
  }

  function FieldValue(line: string): string {
    var i := Colon(line);
    if i == |line| then ""
    else if i + 1 < |line| && line[i + 1] == ' ' then line[i + 2..]
    else line[i + 1..]
  }

  function Field(r: Reader, name: string, value: string): Reader {
    if name == "event" then r.(name := value)
    else if name == "data" then r.(data := r.data + value + "\n")
    else if name == "id" && FreeOf(value, 0 as char) then r.(lastId := value)
    else r
  }

  function Dispatch(r: Reader): Reader {
    if r.data == "" then r.(name := "", data := "")
    else
      var data := if r.data[|r.data| - 1] == '\n' then r.data[..|r.data| - 1] else r.data;
      Reader(r.lastId, "", "", r.out + [Dispatched(r.lastId, if r.name == "" then "message" else r.name, data)])
  }

  function ReadLine(r: Reader, line: string): Reader {
    if line == "" then Dispatch(r)
    else if line[0] == ':' then r
    else Field(r, line[..Colon(line)], FieldValue(line))
  }

  /** The complete lines of a stream; an unfinished last line is discarded. */
  function Lines(s: string): seq<string>
    decreases |s|
  {
    var end := LineEnd(s);
    if end == |s| then []
    else
      var next := if s[end] == '\r' && end + 1 < |s| && s[end + 1] == '\n' then end + 2 else end + 1;
      [s[..end]] + Lines(s[next..])
  }

  function ReadLines(r: Reader, lines: seq<string>): Reader
    decreases |lines|
  {
    if lines == [] then r else ReadLines(ReadLine(r, lines[0]), lines[1..])
  }

  function Read(r: Reader, s: string): Reader { ReadLines(r, Lines(s)) }

  // ----- The round trip -----

  lemma {:induction false} LineEndIs(s: string, k: nat)
    requires k < |s| && Single(s[..k]) && (s[k] == '\r' || s[k] == '\n')
    ensures LineEnd(s) == k
  {
    if k > 0 {
      assert s[0] == s[..k][0];
      assert s[1..][..k - 1] == s[..k][1..];
      LineEndIs(s[1..], k - 1);
    }
  }

  ghost predicate AllSingle(lines: seq<string>) {
    forall i :: 0 <= i < |lines| ==> Single(lines[i])
  }

  lemma Regroup(a: string, b: string, c: string, d: string)
    ensures (a + (b + c)) + d == a + (b + (c + d))
    ensures ((d + a) + b) + c == d + (a + (b + c))
  {
  }

  lemma ConsConcat<T>(a: seq<T>, b: seq<T>)
    requires a != []
    ensures [a[0]] + (a[1..] + b) == a + b
  {
  }

  lemma Assoc<T>(a: seq<T>, b: seq<T>, c: seq<T>)
    ensures (a + b) + c == a + (b + c)
  {
  }

  lemma FirstLine(line: string, rest: string)
    requires Single(line)
    ensures Lines(line + ("\n" + rest)) == [line] + Lines(rest)
  {
    var s := line + ("\n" + rest);
    assert s[..|line|] == line && s[|line|] == '\n' && s[|line| + 1..] == rest;
    LineEndIs(s, |line|);
  }

  /** Splitting a stream into lines recovers the lines it was made of. */
  lemma {:induction false} LinesOfEnded(lines: seq<string>, rest: string)
    requires AllSingle(lines)
    ensures Lines(Ended(lines) + rest) == lines + Lines(rest)
  {
    if lines == [] {
      assert "" + rest == rest && [] + Lines(rest) == Lines(rest);
    } else {
      var more := Ended(lines[1..]) + rest;
      Regroup(lines[0], "\n", Ended(lines[1..]), rest);
      LinesOfEnded(lines[1..], rest);
      FirstLine(lines[0], more);
      ConsConcat(lines, Lines(rest));
    }
  }

  lemma {:induction false} ReadLinesConcat(r: Reader, a: seq<string>, b: seq<string>)
    ensures ReadLines(r, a + b) == ReadLines(ReadLines(r, a), b)
    decreases |a|
  {
    if a == [] {
      assert a + b == b;
    } else {
      ReadLinesConcat(ReadLine(r, a[0]), a[1..], b);
      assert (a + b)[1..] == a[1..] + b;
    }
  }

  lemma ColonAfter(field: string, rest: string)
    requires FreeOf(field, ':')
    ensures Colon(field + ":" + rest) == |field|
  {
    var line := field + ":" + rest;
    assert line[|field|] == ':';
    assert forall k :: 0 <= k < |field| ==> line[k] == field[k];
  }

  lemma ReadField(r: Reader, field: FieldName, value: string)
    ensures ReadLine(r, Line(field, value)) == Field(r, field.Tag(), value)
  {
    var tag, line := field.Tag(), Line(field, value);
    assert line == tag + ":" + (" " + value);
    ColonAfter(tag, " " + value);
    assert line[..|tag|] == tag && line[|tag| + 2..] == value && line[|tag| + 1] == ' ';
  }

  lemma ReadDataLine(r: Reader, piece: string, rest: seq<string>)
    requires Single(piece)
    ensures ReadLines(r, DataLines([piece]) + rest) == ReadLines(r.(data := r.data + piece + "\n"), rest)
  {
    assert TrimCR(piece) == piece;
    ReadField(r, Data, piece);
    assert (DataLines([piece]) + rest)[1..] == rest;
  }

  lemma {:induction false} ReadDataLines(r: Reader, pieces: seq<string>)
    requires AllSingle(pieces)
    ensures ReadLines(r, DataLines(pieces)) == r.(data := r.data + Ended(pieces))
    decreases |pieces|
  {
    if pieces == [] {
      assert r.data + "" == r.data;
    } else {
      assert DataLines(pieces) == DataLines([pieces[0]]) + DataLines(pieces[1..]);
      ReadDataLine(r, pieces[0], DataLines(pieces[1..]));
      var r1 := r.(data := r.data + pieces[0] + "\n");
      ReadDataLines(r1, pieces[1..]);
      Regroup(pieces[0], "\n", Ended(pieces[1..]), r.data);
    }
  }

  lemma {:induction false} SplitPieces(s: string)
    requires FreeOf(s, '\r')
    ensures AllSingle(Split(s)) && Ended(Split(s)) == s + "\n"
  {
    if s != [] {
      SplitPieces(s[1..]);
      var rest := Split(s[1..]);
      if s[0] == '\n' {
        assert ([""] + rest)[1..] == rest;
        assert "" + ("\n" + (s[1..] + "\n")) == s + "\n";
      } else {
        assert ([[s[0]] + rest[0]] + rest[1..])[1..] == rest[1..];
        assert ([s[0]] + rest[0]) + ("\n" + Ended(rest[1..])) == [s[0]] + (rest[0] + ("\n" + Ended(rest[1..])));
      }
    }
  }

  lemma PrintIsPlain(id: EventID)
    ensures Single(Print(id)) && FreeOf(Print(id), 0 as char)
  {
    FormatIsPlain(id.generation);
    FormatIsPlain(id.seqNo);
  }

  lemma FormatIsPlain(n: int)
    ensures forall i :: 0 <= i < |FormatInt(n)| ==> FormatInt(n)[i] == '-' || IsDecimalDigit(FormatInt(n)[i])
  {
  }

  ghost predicate Sendable(ev: Event) { ev.name != "" && Single(ev.name) && FreeOf(ev.data, '\r') }

  function AsRead(ev: Event): Dispatched { Dispatched(Print(ev.id), ev.name, ev.data) }

  lemma DataLinesAreSingle(pieces: seq<string>)
    requires forall i :: 0 <= i < |pieces| ==> Single(pieces[i])
    ensures AllSingle(DataLines(pieces))
  {
    forall i | 0 <= i < |pieces| ensures Single(DataLines(pieces)[i]) { LineIsSingle(Data, TrimCR(pieces[i])); }
  }

  lemma LineIsSingle(field: FieldName, value: string)
    requires Single(value)
    ensures Single(Line(field, value))
  {
    assert Single(field.Tag() + ": ");
  }

  lemma FrameLinesAreSingle(ev: Event)
    requires Sendable(ev)
    ensures AllSingle(FrameLines(ev))
  {
    PrintIsPlain(ev.id);
    LineIsSingle(Id, Print(ev.id));
    LineIsSingle(Name, ev.name);
    SplitPieces(ev.data);
    DataLinesAreSingle(Split(ev.data));
  }

  lemma ReadOne(r: Reader, a: string)
    ensures ReadLines(r, [a]) == ReadLine(r, a)
  {
    assert [a][1..] == [];
  }

  lemma ReadTwo(r: Reader, a: string, b: string)
    ensures ReadLines(r, [a, b]) == ReadLine(ReadLine(r, a), b)
  {
    ReadLinesConcat(r, [a], [b]);
    assert [a] + [b] == [a, b];
    ReadOne(r, a);
    ReadOne(ReadLine(r, a), b);
  }

  /** A clean reader dispatches exactly the event a frame was written from and is clean
      again for the next frame. */
  lemma ReadFrameLines(r: Reader, ev: Event)
    requires r.name == "" && r.data == "" && Sendable(ev)
    ensures ReadLines(r, FrameLines(ev)) == After(r, ev)
  {
    PrintIsPlain(ev.id);
    SplitPieces(ev.data);
    var id := Print(ev.id);
    var pieces := Split(ev.data);
    var head, body := [Line(Id, id), Line(Name, ev.name)], DataLines(pieces);
    ReadTwo(r, head[0], head[1]);
    ReadField(r, Id, id);
    ReadField(r.(lastId := id), Name, ev.name);
    var r2 := Reader(id, ev.name, "", r.out);
    assert ReadLines(r, head) == r2;
    ReadLinesConcat(r, head, body);
    ReadDataLines(r2, pieces);
    assert "" + Ended(pieces) == ev.data + "\n";
    var r3 := Reader(id, ev.name, ev.data + "\n", r.out);
    ReadLinesConcat(r, head + body, [""]);
    ReadOne(r3, "");
    assert r3.data[..|r3.data| - 1] == ev.data;
  }

  /** The reader after a frame: its id remembered, its event dispatched, its buffers empty. */
  function After(r: Reader, ev: Event): Reader { Reader(Print(ev.id), "", "", r.out + [AsRead(ev)]) }

  lemma ReadFrame(r: Reader, ev: Event, rest: string)
    requires r.name == "" && r.data == "" && Sendable(ev)
    ensures Read(r, FrameOf(ev) + rest) == Read(After(r, ev), rest)
  {
    FrameLinesAreSingle(ev);
    LinesOfEnded(FrameLines(ev), rest);
    ReadLinesConcat(r, FrameLines(ev), Lines(rest));
    ReadFrameLines(r, ev);
  }

  function Stream(evs: seq<Event>): string {
    if evs == [] then "" else FrameOf(evs[0]) + Stream(evs[1..])
  }

  function AllRead(evs: seq<Event>): seq<Dispatched> {
    if evs == [] then [] else [AsRead(evs[0])] + AllRead(evs[1..])
  }

  /** A whole stream of frames is read back as the events that were sent, in order. */
  lemma {:induction false} StreamRoundTrip(r: Reader, evs: seq<Event>)
    requires r.name == "" && r.data == "" && forall i :: 0 <= i < |evs| ==> Sendable(evs[i])
    ensures Read(r, Stream(evs)).out == r.out + AllRead(evs)
    decreases |evs|
  {
    if evs != [] {
      var ev := evs[0];
      ReadFrame(r, ev, Stream(evs[1..]));
      StreamRoundTrip(After(r, ev), evs[1..]);
      Assoc(r.out, [AsRead(ev)], AllRead(evs[1..]));
    }
  }

  // ----- Exactly which payloads survive -----

  ghost predicate NoCR(r: Reader) {
    FreeOf(r.data, '\r') && forall i :: 0 <= i < |r.out| ==> FreeOf(r.out[i].data, '\r')
  }

  lemma ReadLineKeepsNoCR(r: Reader, line: string)
    requires NoCR(r) && Single(line)
    ensures NoCR(ReadLine(r, line))
  {
  }

  lemma {:induction false} ReadLinesKeepsNoCR(r: Reader, lines: seq<string>)
    requires NoCR(r) && AllSingle(lines)
    ensures NoCR(ReadLines(r, lines))
    decreases |lines|
  {
    if lines != [] {
      ReadLineKeepsNoCR(r, lines[0]);
      ReadLinesKeepsNoCR(ReadLine(r, lines[0]), lines[1..]);
    }
  }

  lemma {:induction false} LinesAreSingle(s: string)
    ensures AllSingle(Lines(s))
    decreases |s|
  {
    var end := LineEnd(s);
    if end < |s| {
      var next := if s[end] == '\r' && end + 1 < |s| && s[end + 1] == '\n' then end + 2 else end + 1;
      LinesAreSingle(s[next..]);
    }
  }

  /** The receiver recovers id, name and payload from a frame if and only if the payload
      holds no carriage return. */
  lemma FrameRoundTrip(ev: Event)
    requires ev.name != "" && Single(ev.name)
    ensures Read(FRESH_READER, FrameOf(ev)).out == [AsRead(ev)] <==> FreeOf(ev.data, '\r')
  {
    if FreeOf(ev.data, '\r') {
      StreamRoundTrip(FRESH_READER, [ev]);
      assert Stream([ev]) == FrameOf(ev) by { assert Stream([ev][1..]) == ""; }
      assert AllRead([ev]) == [AsRead(ev)] + AllRead([ev][1..]);
    } else {
      LinesAreSingle(FrameOf(ev));
      ReadLinesKeepsNoCR(FRESH_READER, Lines(FrameOf(ev)));
      assert [AsRead(ev)][0].data == ev.data;
    }
  }
}
