/**
 The server-sent-events reader of subscribe.go: the line scanner, the line parser and the printed
 form of events. The parser accepts a subset of section 9.2.6 of the WHATWG HTML Living Standard:
 a field name must be followed by a colon and a space, and an id counts only with an event that
 has data.

 A character stands for one byte.
 */
module Sse {
  /** What the handler is given: the type, and under "raw" and "id" the data and the event id. */
  datatype Event = Event(kind: string, raw: string, id: string)

  /** The variables of readSSEStream, and what it has passed to the handler. */
  datatype Parser = Parser(
    eventType: string, eventID: string, lastEventID: string, dataLines: seq<string>, delivered: seq<Event>)

  const Fresh := Parser("", "", "", [], [])

  function Join(lines: seq<string>): string {
    if lines == [] then ""
    else if |lines| == 1 then lines[0]
    else lines[0] + "\n" + Join(lines[1..])
  }

  // --- The line parser ---

  function FeedBlank(p: Parser): Parser {
    if |p.dataLines| > 0 then
      var last := if p.eventID != "" then p.eventID else p.lastEventID;
      Parser("", "", last, [], p.delivered + [Event(p.eventType, Join(p.dataLines), last)])
    else
      Parser("", "", p.lastEventID, [], p.delivered)
  }

  function Feed(p: Parser, line: string): Parser {
    if line == "" then FeedBlank(p)
    else if ":" <= line then p
    else if "event: " <= line then p.(eventType := line[7..])
    else if "data: " <= line then p.(dataLines := p.dataLines + [line[6..]])
    else if line == "data" then p.(dataLines := p.dataLines + [""])
    else if "id: " <= line then p.(eventID := line[4..])
    else if line == "id" then p.(eventID := "")
    else p
  }

  function FeedAll(p: Parser, lines: seq<string>): Parser {
    if lines == [] then p else Feed(FeedAll(p, lines[..|lines| - 1]), lines[|lines| - 1])
  }

  lemma {:induction false} FeedAllJoin(p: Parser, a: seq<string>, b: seq<string>)
    ensures FeedAll(p, a + b) == FeedAll(FeedAll(p, a), b)
  {
    if b == [] {
      assert a + b == a;
    } else {
      assert (a + b)[..|a + b| - 1] == a + b[..|b| - 1];
      FeedAllJoin(p, a, b[..|b| - 1]);
    }
  }

  /** Reading fewer lines delivers a prefix of the events. */
  lemma {:induction false} FewerLines(p: Parser, lines: seq<string>, n: nat)
    requires n <= |lines|
    ensures FeedAll(p, lines[..n]).delivered <= FeedAll(p, lines).delivered
  {
    if n < |lines| {
      var before := lines[..|lines| - 1];
      assert before[..n] == lines[..n];
      FewerLines(p, before, n);
    } else {
      assert lines[..n] == lines;
    }
  }

  // --- Comments ---

  function NoComments(lines: seq<string>): seq<string> {
    if lines == [] then []
    else
      var last := lines[|lines| - 1];
      NoComments(lines[..|lines| - 1]) + if ":" <= last then [] else [last]
  }

  /** Comment lines, wherever they are, change nothing. */
  lemma {:induction false} CommentsChangeNothing(p: Parser, lines: seq<string>)
    ensures FeedAll(p, lines) == FeedAll(p, NoComments(lines))
  {
    if lines != [] {
      var before, last := lines[..|lines| - 1], lines[|lines| - 1];
      CommentsChangeNothing(p, before);
      if ":" <= last {
        assert NoComments(lines) == NoComments(before);
      } else {
        FeedAllJoin(p, NoComments(before), [last]);
        FeedOne(FeedAll(p, NoComments(before)), last);
      }
    }
  }

  lemma {:induction false} NoCommentsPrefix(lines: seq<string>, n: nat)
    requires n <= |lines|
    ensures NoComments(lines[..n]) <= NoComments(lines)
  {
    if n < |lines| {
      assert lines[..|lines| - 1][..n] == lines[..n];
      NoCommentsPrefix(lines[..|lines| - 1], n);
    } else {
      assert lines[..n] == lines;
    }
  }

  // --- The printed form of events ---

  /** An event as the server has it: its data is a list of lines. */
  datatype Source = Source(kind: string, id: string, data: seq<string>)

  function DataLines(data: seq<string>): seq<string> {
    seq(|data|, i requires 0 <= i < |data| => "data: " + data[i])
  }

  function Header(e: Source): seq<string> {
    (if e.kind == "" then [] else ["event: " + e.kind]) + (if e.id == "" then [] else ["id: " + e.id])
  }

  function Print(e: Source): seq<string> {
    Header(e) + DataLines(e.data) + [""]
  }

  function PrintAll(es: seq<Source>): seq<string> {
    if es == [] then [] else PrintAll(es[..|es| - 1]) + Print(es[|es| - 1])
  }

  /** The latest non-empty id of an event that has data. */
  function LastId(es: seq<Source>): string {
    if es == [] then ""
    else
      var e := es[|es| - 1];
      if e.id != "" && e.data != [] then e.id else LastId(es[..|es| - 1])
  }

  /** What a reader should be given for these events: those with data, each with the latest id. */
  function Intended(es: seq<Source>): seq<Event> {
    if es == [] then []
    else
      var e := es[|es| - 1];
      Intended(es[..|es| - 1]) + if e.data == [] then [] else [Event(e.kind, Join(e.data), LastId(es))]
  }

  lemma FeedFields(p: Parser, text: string)
    ensures Feed(p, "event: " + text) == p.(eventType := text)
    ensures Feed(p, "id: " + text) == p.(eventID := text)
    ensures Feed(p, "data: " + text) == p.(dataLines := p.dataLines + [text])
  {
    var kind, id, data := "event: " + text, "id: " + text, "data: " + text;
    assert kind[0] == 'e' && id[0] == 'i' && data[0] == 'd';
    assert kind[7..] == text && id[4..] == text && data[6..] == text;
    assert "event: " <= kind && "id: " <= id && "data: " <= data;
  }

  lemma {:induction false} FeedData(p: Parser, data: seq<string>)
    ensures FeedAll(p, DataLines(data)) == p.(dataLines := p.dataLines + data)
  {
    if data == [] {
      assert p.dataLines + data == p.dataLines;
    } else {
      var before, last := data[..|data| - 1], data[|data| - 1];
      assert DataLines(data)[..|data| - 1] == DataLines(before);
      FeedData(p, before);
      FeedFields(FeedAll(p, DataLines(before)), last);
      assert p.dataLines + before + [last] == p.dataLines + data;
    }
  }

  lemma FeedOne(p: Parser, line: string)
    ensures FeedAll(p, [line]) == Feed(p, line)
  {
    assert [line][..0] == [];
  }

  lemma FeedHeader(p: Parser, e: Source)
    requires p.eventType == "" && p.eventID == ""
    ensures FeedAll(p, Header(e)) == p.(eventType := e.kind, eventID := e.id)
  {
    var a := if e.kind == "" then [] else ["event: " + e.kind];
    var b := if e.id == "" then [] else ["id: " + e.id];
    FeedAllJoin(p, a, b);
    FeedFields(p, e.kind);
    FeedOne(p, "event: " + e.kind);
    var p1 := FeedAll(p, a);
    assert p1 == p.(eventType := e.kind);
    FeedFields(p1, e.id);
    FeedOne(p1, "id: " + e.id);
  }

  ghost predicate Idle(p: Parser) { p.eventType == "" && p.eventID == "" && p.dataLines == [] }

  lemma FeedPrinted(p: Parser, e: Source)
    requires Idle(p)
    ensures FeedAll(p, Print(e)) == FeedBlank(p.(eventType := e.kind, eventID := e.id, dataLines := e.data))
  {
    FeedAllJoin(p, Header(e) + DataLines(e.data), [""]);
    FeedAllJoin(p, Header(e), DataLines(e.data));
    FeedHeader(p, e);
    FeedData(FeedAll(p, Header(e)), e.data);
    assert p.dataLines + e.data == e.data;
    FeedOne(FeedAll(p, Header(e) + DataLines(e.data)), "");
  }

  // --- What a handler can read off an event ---

  function Newline(text: string): (i: nat)
    ensures i <= |text|
    ensures forall k :: 0 <= k < i ==> text[k] != '\n'
    ensures i < |text| ==> text[i] == '\n'
  {
    if text == "" || text[0] == '\n' then 0 else 1 + Newline(text[1..])
  }

  /** The pieces of a text between line feeds. */
  function Split(text: string): seq<string> {
    var i := Newline(text);
    if i == |text| then [text] else [text[..i]] + Split(text[i + 1..])
  }

  predicate NoBreak(line: string) { '\n' !in line }

  lemma SplitLine(line: string, rest: string)
    requires NoBreak(line)
    ensures Split(line) == [line] && Split(line + "\n" + rest) == [line] + Split(rest)
  {
    var text := line + "\n" + rest;
    assert forall k :: 0 <= k < |line| ==> line[k] in line && text[k] == line[k];
    assert Newline(line) == |line|;
    assert text[|line|] == '\n' && Newline(text) == |line|;
    assert text[..|line|] == line && text[|line| + 1..] == rest;
  }

  /** The data lines of an event can be read off its text again. */
  lemma {:induction false} SplitJoin(lines: seq<string>)
    requires lines != [] && forall i :: 0 <= i < |lines| ==> NoBreak(lines[i])
    ensures Split(Join(lines)) == lines
  {
    if |lines| == 1 {
      SplitLine(lines[0], "");
    } else {
      SplitLine(lines[0], Join(lines[1..]));
      SplitJoin(lines[1..]);
    }
  }

  function WithData(es: seq<Source>): seq<Source> {
    if es == [] then []
    else
      var e := es[|es| - 1];
      WithData(es[..|es| - 1]) + if e.data == [] then [] else [e]
  }

  /** The id that counts once these events have been handed over. */
  function Latest(events: seq<Event>): string { if events == [] then "" else events[|events| - 1].id }

  /** Event for event the type, the data lines, and the own id or else that of the event before. */
  ghost predicate Conveys(es: seq<Source>, events: seq<Event>) {
    |events| == |es|
    && forall i :: 0 <= i < |es| ==>
         && events[i].kind == es[i].kind && Split(events[i].raw) == es[i].data
         && events[i].id == if es[i].id != "" then es[i].id else Latest(events[..i])
  }

  ghost predicate NoBreaks(es: seq<Source>) {
    forall i, k :: 0 <= i < |es| && 0 <= k < |es[i].data| ==> NoBreak(es[i].data[k])
  }

  lemma ConveysMore(es: seq<Source>, events: seq<Event>, e: Source, x: Event)
    requires Conveys(es, events)
    requires x.kind == e.kind && Split(x.raw) == e.data && x.id == if e.id != "" then e.id else Latest(events)
    ensures Conveys(es + [e], events + [x])
  {
    var all := events + [x];
    assert all[..|events|] == events;
    assert forall i :: 0 <= i < |events| ==> all[..i] == events[..i];
  }

  /** What a reader should be given conveys the events that have data. */
  lemma {:induction false} IntendedConveys(es: seq<Source>)
    requires NoBreaks(es)
    ensures Conveys(WithData(es), Intended(es)) && LastId(es) == Latest(Intended(es))
  {
    if es != [] {
      var before, e := es[..|es| - 1], es[|es| - 1];
      IntendedConveys(before);
      if e.data != [] {
        SplitJoin(e.data);
        ConveysMore(WithData(before), Intended(before), e, Event(e.kind, Join(e.data), LastId(es)));
      }
    }
  }

  lemma {:induction false} ParsedBack(es: seq<Source>)
    ensures FeedAll(Fresh, PrintAll(es)) == Parser("", "", LastId(es), [], Intended(es))
  {
    if es != [] {
      var before, e := es[..|es| - 1], es[|es| - 1];
      ParsedBack(before);
      FeedAllJoin(Fresh, PrintAll(before), Print(e));
      FeedPrinted(FeedAll(Fresh, PrintAll(before)), e);
    }
  }

  /**
   Round trip: parsing the printed form of any events gives back those that have data, each with its
   type, its data lines and the latest id, which is also the one remembered.
   */
  lemma RoundTrip(es: seq<Source>)
    ensures FeedAll(Fresh, PrintAll(es)) == Parser("", "", LastId(es), [], Intended(es))
    ensures NoBreaks(es) ==>
              Conveys(WithData(es), Intended(es)) && LastId(es) == Latest(Intended(es))
  {
    ParsedBack(es);
    if NoBreaks(es) {
      IntendedConveys(es);
    }
  }

  // --- Other lines ---

  lemma FeedBetween(p: Parser, a: seq<string>, line: string, b: seq<string>)
    ensures FeedAll(p, a + [line] + b) == FeedAll(Feed(FeedAll(p, a), line), b)
  {
    FeedAllJoin(p, a + [line], b);
    FeedAllJoin(p, a, [line]);
    FeedOne(FeedAll(p, a), line);
  }

  /** A bare field name means the same as the field with an empty value. */
  lemma BareFields(p: Parser, a: seq<string>, b: seq<string>)
    ensures FeedAll(p, a + ["data"] + b) == FeedAll(p, a + ["data: "] + b)
    ensures FeedAll(p, a + ["id"] + b) == FeedAll(p, a + ["id: "] + b)
  {
    FeedBetween(p, a, "data", b);
    FeedBetween(p, a, "data: ", b);
    FeedBetween(p, a, "id", b);
    FeedBetween(p, a, "id: ", b);
    var q := FeedAll(p, a);
    FeedFields(q, "");
    assert "data: " + "" == "data: " && "id: " + "" == "id: ";
    assert "data"[0] == 'd' && "id"[0] == 'i';
  }

  predicate StartsWith(line: string, head: string) { |head| <= |line| && line[..|head|] == head }

  /** A line that is no field: an unknown name, a name without the space after the colon, a comment. */
  predicate NoField(line: string) {
    && line != "" && line != "data" && line != "id"
    && !StartsWith(line, "event: ") && !StartsWith(line, "data: ") && !StartsWith(line, "id: ")
  }

  lemma OtherLinesChangeNothing(p: Parser, a: seq<string>, line: string, b: seq<string>)
    requires NoField(line)
    ensures FeedAll(p, a + [line] + b) == FeedAll(p, a + b)
  {
    FeedBetween(p, a, line, b);
    FeedAllJoin(p, a, b);
  }

  lemma {:induction false} NothingDispatched(p: Parser, lines: seq<string>)
    requires "" !in lines
    ensures FeedAll(p, lines).delivered == p.delivered && FeedAll(p, lines).lastEventID == p.lastEventID
  {
    if lines != [] {
      assert lines[|lines| - 1] in lines;
      NothingDispatched(p, lines[..|lines| - 1]);
    }
  }

  lemma PartOfEvent(es: seq<Source>, e: Source, m: nat)
    requires m < |Print(e)|
    ensures var p := FeedAll(Fresh, PrintAll(es) + Print(e)[..m]);
            p.delivered == Intended(es) && p.lastEventID == LastId(es)
  {
    ParsedBack(es);
    FeedAllJoin(Fresh, PrintAll(es), Print(e)[..m]);
    NothingDispatched(FeedAll(Fresh, PrintAll(es)), Print(e)[..m]);
  }

  lemma TakeFromJoin(a: seq<string>, b: seq<string>, m: nat)
    requires m <= |a + b|
    ensures (a + b)[..m] == if m < |a| then a[..m] else a + b[..m - |a|]
  {
  }

  /** The first m lines of a printed stream have delivered exactly its first q events. */
  ghost predicate DeliveredBy(es: seq<Source>, m: nat, q: nat)
    requires m <= |PrintAll(es)| && q <= |es|
  {
    var p := FeedAll(Fresh, PrintAll(es)[..m]);
    p.delivered == Intended(es[..q]) && p.lastEventID == LastId(es[..q])
  }

  lemma PrintedWhole(es: seq<Source>)
    ensures DeliveredBy(es, |PrintAll(es)|, |es|)
  {
    ParsedBack(es);
    assert PrintAll(es)[..|PrintAll(es)|] == PrintAll(es) && es[..|es|] == es;
  }

  lemma PrintedInLast(es: seq<Source>, m: nat)
    requires es != [] && |PrintAll(es[..|es| - 1])| <= m < |PrintAll(es)|
    ensures DeliveredBy(es, m, |es| - 1)
  {
    var before, e := es[..|es| - 1], es[|es| - 1];
    TakeFromJoin(PrintAll(before), Print(e), m);
    PartOfEvent(before, e, m - |PrintAll(before)|);
  }

  lemma PrintedEarlier(es: seq<Source>, m: nat, q: nat)
    requires es != [] && m < |PrintAll(es[..|es| - 1])| && q <= |es| - 1
    requires DeliveredBy(es[..|es| - 1], m, q)
    ensures DeliveredBy(es, m, q)
  {
    var before, e := es[..|es| - 1], es[|es| - 1];
    TakeFromJoin(PrintAll(before), Print(e), m);
    assert before[..q] == es[..q];
  }

  lemma {:induction false} PrintedPart(es: seq<Source>, q: nat)
    requires q <= |es|
    ensures PrintAll(es[..q]) <= PrintAll(es)
  {
    if q == |es| {
      assert es[..q] == es;
    } else {
      assert es[..|es| - 1][..q] == es[..q];
      PrintedPart(es[..|es| - 1], q);
    }
  }

  /** Cut anywhere between lines, a printed stream has delivered exactly its first q events, printed in full. */
  lemma {:induction false} PrintedPrefix(es: seq<Source>, m: nat) returns (q: nat)
    requires m <= |PrintAll(es)|
    ensures q <= |es| && (m == |PrintAll(es)| ==> q == |es|)
    ensures DeliveredBy(es, m, q) && |PrintAll(es[..q])| <= m
  {
    if m == |PrintAll(es)| {
      q := |es|;
      assert es[..q] == es;
      PrintedWhole(es);
    } else if m < |PrintAll(es[..|es| - 1])| {
      q := PrintedPrefix(es[..|es| - 1], m);
      assert es[..|es| - 1][..q] == es[..q];
      PrintedEarlier(es, m, q);
    } else {
      q := |es| - 1;
      PrintedInLast(es, m);
    }
  }

  // --- The line scanner (bufio.Scanner with ScanLines and its default limit) ---

  const MAX_LINE: nat := 65535

  function DropCR(line: string): string {
    if line != "" && line[|line| - 1] == '\r' then line[..|line| - 1] else line
  }

  /** The lines of a text; a last line without a newline counts unless empty, a long line ends the scan. */
  function Scan(text: string): seq<string> {
    var i := Newline(text);
    if text == "" || i > MAX_LINE then []
    else if i == |text| then [DropCR(text)]
    else [DropCR(text[..i])] + Scan(text[i + 1..])
  }

  /** The lines handled before the context is found cancelled, if it is found cancelled before line `cancelAt`. */
  function Handled(text: string, cancelAt: nat): seq<string> {
    var lines := Scan(text);
    if cancelAt < |lines| then lines[..cancelAt] else lines
  }

  /** Reads a response body line by line; the context is checked before each line. */
  method ReadSSEStream(text: string, cancelAt: nat) returns (last: string, events: seq<Event>)
    ensures var p := FeedAll(Fresh, Handled(text, cancelAt));
            last == p.lastEventID && events == p.delivered
  {
    var lines := Scan(text);
    var eventType, eventID, lastEventID := "", "", "";
    var dataLines: seq<string> := [];
    events := [];
    for i := 0 to |lines|
      invariant FeedAll(Fresh, lines[..i]) == Parser(eventType, eventID, lastEventID, dataLines, events)
      invariant i <= cancelAt
    {
      if i == cancelAt {
        return lastEventID, events;
      }
      var line := lines[i];
      assert lines[..i + 1][..i] == lines[..i];
      if line == "" {
        if |dataLines| > 0 {
          if eventID != "" {
            lastEventID := eventID;
          }
          events := events + [Event(eventType, Join(dataLines), lastEventID)];
        }
        eventType, eventID, dataLines := "", "", [];
      } else if ":" <= line {
      } else if "event: " <= line {
        eventType := line[7..];
      } else if "data: " <= line {
        dataLines := dataLines + [line[6..]];
      } else if line == "data" {
        dataLines := dataLines + [""];
      } else if "id: " <= line {
        eventID := line[4..];
      } else if line == "id" {
        eventID := "";
      }
    }
    assert lines[..|lines|] == lines;
    last := lastEventID;
  }

  predicate Clean(line: string) { '\n' !in line && '\r' !in line }

  function Text(lines: seq<string>): string {
    if lines == [] then "" else lines[0] + "\n" + Text(lines[1..])
  }

  lemma CleanPrefix(line: string, n: nat)
    requires Clean(line) && n <= |line|
    ensures Clean(line[..n]) && DropCR(line[..n]) == line[..n]
  {
    if n > 0 {
      assert line[n - 1] in line;
    }
  }

  lemma ScanPiece(text: string)
    requires Clean(text)
    ensures Scan(text) == if text == "" || |text| > MAX_LINE then [] else [text]
  {
    var i := Newline(text);
    assert forall k :: 0 <= k < |text| ==> text[k] in text;
    assert i == |text|;
    CleanPrefix(text, |text|);
    assert text[..|text|] == text;
  }

  lemma ScanLine(line: string, rest: string)
    requires Clean(line)
    ensures Scan(line + "\n" + rest) == if |line| > MAX_LINE then [] else [line] + Scan(rest)
  {
    var text := line + "\n" + rest;
    assert text[|line|] == '\n';
    assert forall k :: 0 <= k < |line| ==> text[k] == line[k] && line[k] in line;
    assert Newline(text) == |line|;
    CleanPrefix(line, |line|);
    assert text[..|line|] == line && line[..|line|] == line && text[|line| + 1..] == rest;
  }

  lemma CutInLine(line: string, rest: string, n: nat) returns (piece: seq<string>)
    requires Clean(line) && n <= |line|
    ensures "" !in piece && Scan((line + "\n" + rest)[..n]) == piece
  {
    assert (line + "\n" + rest)[..n] == line[..n];
    CleanPrefix(line, n);
    ScanPiece(line[..n]);
    piece := if n == 0 || n > MAX_LINE then [] else [line[..n]];
  }

  lemma CutAfterLine(line: string, rest: string, n: nat)
    requires Clean(line) && |line| < n <= |line + "\n" + rest|
    ensures Scan((line + "\n" + rest)[..n])
         == if |line| > MAX_LINE then [] else [line] + Scan(rest[..n - |line| - 1])
  {
    assert (line + "\n" + rest)[..n] == line + "\n" + rest[..n - |line| - 1];
    ScanLine(line, rest[..n - |line| - 1]);
  }

  lemma TakeOneMore(lines: seq<string>, k: nat, piece: seq<string>)
    requires k < |lines|
    ensures [lines[0]] + (lines[1..][..k] + piece) == lines[..k + 1] + piece
  {
  }

  ghost predicate AllClean(lines: seq<string>) { forall i :: 0 <= i < |lines| ==> Clean(lines[i]) }

  ghost predicate AllShort(lines: seq<string>) { forall i :: 0 <= i < |lines| ==> |lines[i]| <= MAX_LINE }

  /** The first n bytes scan to the first k lines, none too long, and at most a non-empty piece of the next. */
  ghost predicate CutsTo(lines: seq<string>, n: nat, k: nat, piece: seq<string>)
    requires n <= |Text(lines)|
  {
    k <= |lines| && Scan(Text(lines)[..n]) == lines[..k] + piece && "" !in piece && AllShort(lines[..k])
  }

  lemma CutFirst(lines: seq<string>, n: nat) returns (piece: seq<string>)
    requires lines != [] && Clean(lines[0]) && n <= |Text(lines)|
    requires n <= |lines[0]| || |lines[0]| > MAX_LINE
    ensures CutsTo(lines, n, 0, piece)
  {
    if n <= |lines[0]| {
      piece := CutInLine(lines[0], Text(lines[1..]), n);
    } else {
      CutAfterLine(lines[0], Text(lines[1..]), n);
      piece := [];
    }
  }

  lemma CutLater(lines: seq<string>, n: nat, k: nat, piece: seq<string>)
    requires lines != [] && Clean(lines[0]) && |lines[0]| < n <= |Text(lines)| && |lines[0]| <= MAX_LINE
    requires CutsTo(lines[1..], n - |lines[0]| - 1, k, piece)
    ensures CutsTo(lines, n, k + 1, piece)
  {
    assert lines[..k + 1] == [lines[0]] + lines[1..][..k];
    CutAfterLine(lines[0], Text(lines[1..]), n);
    TakeOneMore(lines, k, piece);
  }

  /**
   Cut at any byte, a text of clean lines scans to some of its first lines, none too long, followed at most
   by a non-empty piece of the next one; the pieces of lines never make a blank line.
   */
  lemma {:induction false} CutScan(lines: seq<string>, n: nat) returns (k: nat, piece: seq<string>)
    requires n <= |Text(lines)| && AllClean(lines)
    ensures CutsTo(lines, n, k, piece)
  {
    k, piece := 0, [];
    if lines != [] {
      if n <= |lines[0]| || |lines[0]| > MAX_LINE {
        piece := CutFirst(lines, n);
      } else {
        k, piece := CutScan(lines[1..], n - |lines[0]| - 1);
        CutLater(lines, n, k, piece);
        k := k + 1;
      }
    }
  }

  /** The same round trip through bytes, if the fields hold no line breaks and the lines are within the limit. */
  lemma TextRoundTrip(es: seq<Source>)
    requires AllClean(PrintAll(es)) && AllShort(PrintAll(es))
    ensures FeedAll(Fresh, Scan(Text(PrintAll(es)))) == Parser("", "", LastId(es), [], Intended(es))
    ensures Conveys(WithData(es), Intended(es)) && LastId(es) == Latest(Intended(es))
  {
    ScanText(PrintAll(es));
    CleanNoBreaks(es);
    RoundTrip(es);
  }

  lemma {:induction false} CleanNoBreaks(es: seq<Source>)
    requires AllClean(PrintAll(es))
    ensures NoBreaks(es)
  {
    if es != [] {
      var before, e := es[..|es| - 1], es[|es| - 1];
      var n := |PrintAll(before)|;
      forall i | 0 <= i < n ensures Clean(PrintAll(before)[i]) {
        assert PrintAll(es)[i] == PrintAll(before)[i];
      }
      CleanNoBreaks(before);
      forall k | 0 <= k < |e.data| ensures NoBreak(e.data[k]) {
        var d, line := e.data[k], PrintAll(es)[n + |Header(e)| + k];
        assert line == "data: " + d && Clean(line);
        assert forall j :: 0 <= j < |d| ==> d[j] == line[6 + j] && d[j] in line;
      }
    }
  }

  /** Lines that end in a carriage return and a line feed. */
  function TextCrLf(lines: seq<string>): string {
    if lines == [] then "" else lines[0] + "\r\n" + TextCrLf(lines[1..])
  }

  lemma ScanCrLf(line: string, rest: string)
    requires Clean(line) && |line| < MAX_LINE
    ensures Scan(line + "\r\n" + rest) == [line] + Scan(rest)
  {
    var text := line + "\r\n" + rest;
    assert forall k :: 0 <= k < |line| ==> text[k] == line[k] && line[k] in line;
    assert text[|line|] == '\r' && text[|line| + 1] == '\n' && Newline(text) == |line| + 1;
    assert text[..|line| + 1] == line + "\r" && text[|line| + 2..] == rest;
    assert DropCR(line + "\r") == line;
  }

  /** Line ends of either kind are the same to the scanner. */
  lemma {:induction false} EitherLineEnd(lines: seq<string>)
    requires AllClean(lines) && forall i :: 0 <= i < |lines| ==> |lines[i]| < MAX_LINE
    ensures Scan(TextCrLf(lines)) == Scan(Text(lines)) == lines
  {
    if lines != [] {
      ScanCrLf(lines[0], TextCrLf(lines[1..]));
      ScanLine(lines[0], Text(lines[1..]));
      EitherLineEnd(lines[1..]);
    }
  }

  lemma {:induction false} ScanText(lines: seq<string>)
    requires AllClean(lines) && AllShort(lines)
    ensures Scan(Text(lines)) == lines
  {
    if lines != [] {
      ScanLine(lines[0], Text(lines[1..]));
      ScanText(lines[1..]);
    }
  }
}
