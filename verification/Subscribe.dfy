/**
 SubscribeWithReconnect of subscribe.go against a server that resends what follows Last-Event-ID.
 */
module Subscribe {
  import opened Wrappers
  import opened Sse

  /**
   One connection attempt: refused (a transport error or a status other than 200), or accepted with a
   body of which `received` bytes arrive before it ends or breaks. `visible` events were in the server's
   log by then; `lines` are what the server meant to send, keep-alive comments included.
   */
  datatype Connection = Refused | Accepted(visible: nat, lines: seq<string>, received: nat)

  function Received(c: Connection): string
    requires c.Accepted?
  {
    if c.received < |Text(c.lines)| then Text(c.lines)[..c.received] else Text(c.lines)
  }

  /** The reconnect loop between connections: the id it will send, and everything passed to the handler. */
  datatype Session = Session(lastEventID: string, delivered: seq<Event>)

  function Connect(s: Session, c: Connection): Session {
    if c.Refused? then s
    else
      var p := FeedAll(Fresh, Scan(Received(c)));
      Session(if p.lastEventID != "" then p.lastEventID else s.lastEventID, s.delivered + p.delivered)
  }

  function ConnectAll(cs: seq<Connection>): Session {
    if cs == [] then Session("", []) else Connect(ConnectAll(cs[..|cs| - 1]), cs[|cs| - 1])
  }

  // --- The loop ---

  const MAX_BACKOFF := 30

  /** How many connections failed in a row at the end of cs. */
  function FailedInARow(cs: seq<Connection>): nat {
    if cs == [] || cs[|cs| - 1].Accepted? then 0 else 1 + FailedInARow(cs[..|cs| - 1])
  }

  function Doubled(n: nat): nat { if n == 0 then 1 else 2 * Doubled(n - 1) }

  /** The seconds waited after the last of cs: 1 after an accepted connection, else doubled up to the limit. */
  function WaitAfter(cs: seq<Connection>): nat {
    var failed := FailedInARow(cs);
    var doublings := if failed == |cs| && failed > 0 then failed - 1 else failed;
    if Doubled(doublings) < MAX_BACKOFF then Doubled(doublings) else MAX_BACKOFF
  }

  /** The same if the context is found cancelled before line `cancelAt` of the body. */
  function Interrupt(s: Session, c: Connection, cancelAt: nat): Session {
    if c.Refused? then s
    else
      var p := FeedAll(Fresh, Handled(Received(c), cancelAt));
      Session(if p.lastEventID != "" then p.lastEventID else s.lastEventID, s.delivered + p.delivered)
  }

  lemma NotInterrupted(s: Session, c: Connection)
    requires c.Accepted?
    ensures Interrupt(s, c, |Scan(Received(c))|) == Connect(s, c)
  {
  }

  method SubscribeOnce(c: Connection, lastEventID: string, cancelAt: nat)
    returns (eventID: string, ok: bool, events: seq<Event>)
    ensures ok == c.Accepted?
    ensures forall s: Session :: s.lastEventID == lastEventID ==>
              Interrupt(s, c, cancelAt) == Session(if eventID != "" then eventID else lastEventID, s.delivered + events)
  {
    if c.Refused? {
      return lastEventID, false, [];
    }
    ok := true;
    eventID, events := ReadSSEStream(Received(c), cancelAt);
  }

  /** The Last-Event-ID values sent: before each connection, the id of the session. */
  function SentIds(cs: seq<Connection>): seq<string> {
    if cs == [] then [] else SentIds(cs[..|cs| - 1]) + [ConnectAll(cs[..|cs| - 1]).lastEventID]
  }

  function Waits(cs: seq<Connection>): seq<nat> {
    if cs == [] then [] else Waits(cs[..|cs| - 1]) + [WaitAfter(cs)]
  }

  /** The session when the loop ends: `last` is the connection and line at which it is cancelled, if any. */
  function Final(cs: seq<Connection>, last: Option<(Connection, nat)>): Session {
    if last.Some? then Interrupt(ConnectAll(cs), last.value.0, last.value.1) else ConnectAll(cs)
  }

  /**
   The loop up to the cancellation of its context: in the wait after the connections cs, or during, or
   right after, one more connection.
   */
  method SubscribeWithReconnect(cs: seq<Connection>, last: Option<(Connection, nat)>)
    returns (delivered: seq<Event>, sent: seq<string>, waits: seq<nat>)
    ensures delivered == Final(cs, last).delivered
    ensures sent == SentIds(cs) + if last.Some? then [ConnectAll(cs).lastEventID] else []
    ensures waits == Waits(cs)
  {
    var backoff: nat := 1;
    var lastEventID := "";
    delivered, sent, waits := [], [], [];
    ghost var before: seq<Connection> := [];
    for i := 0 to |cs|
      invariant before == cs[..i]
      invariant ConnectAll(before) == Session(lastEventID, delivered)
      invariant sent == SentIds(before) && waits == Waits(before)
      invariant backoff == if before == [] then 1 else Min(2 * WaitAfter(before), MAX_BACKOFF)
    {
      sent := sent + [lastEventID];
      OneMore(before, cs[i]);
      var eventID, ok, events := Uncancelled(cs[i], lastEventID);
      delivered := delivered + events;
      if eventID != "" {
        lastEventID := eventID;
      }
      if ok {
        backoff := 1;
      }
      waits := waits + [backoff];
      backoff := Min(backoff * 2, MAX_BACKOFF);
      before := before + [cs[i]];
    }
    assert cs[..|cs|] == cs;
    if last.Some? {
      sent := sent + [lastEventID];
      var _, _, events := SubscribeOnce(last.value.0, lastEventID, last.value.1);
      delivered := delivered + events;
    }
  }

  /** One turn of the loop without cancellation. */
  method Uncancelled(c: Connection, lastEventID: string) returns (eventID: string, ok: bool, events: seq<Event>)
    ensures ok == c.Accepted?
    ensures forall s: Session :: s.lastEventID == lastEventID ==>
              Connect(s, c) == Session(if eventID != "" then eventID else lastEventID, s.delivered + events)
  {
    eventID, ok, events := SubscribeOnce(c, lastEventID, if c.Accepted? then |Scan(Received(c))| else 0);
    forall s: Session | s.lastEventID == lastEventID
      ensures Connect(s, c) == Session(if eventID != "" then eventID else lastEventID, s.delivered + events)
    {
      if c.Accepted? {
        NotInterrupted(s, c);
      }
    }
  }

  lemma OneMore(cs: seq<Connection>, c: Connection)
    ensures ConnectAll(cs + [c]) == Connect(ConnectAll(cs), c)
    ensures SentIds(cs + [c]) == SentIds(cs) + [ConnectAll(cs).lastEventID]
    ensures Waits(cs + [c]) == Waits(cs) + [WaitAfter(cs + [c])]
    ensures WaitAfter(cs + [c]) == if c.Accepted? || cs == [] then 1 else Min(2 * WaitAfter(cs), MAX_BACKOFF)
  {
    assert (cs + [c])[..|cs|] == cs;
    NextWait(cs, c);
  }

  function Min(a: nat, b: nat): nat { if a < b then a else b }

  lemma NextWait(cs: seq<Connection>, c: Connection)
    ensures WaitAfter(cs + [c])
         == if c.Accepted? || cs == [] then 1 else Min(2 * WaitAfter(cs), MAX_BACKOFF)
  {
    assert (cs + [c])[..|cs|] == cs;
    FailedBound(cs);
    if c.Refused? && cs != [] {
      var failed := FailedInARow(cs);
      assert FailedInARow(cs + [c]) == failed + 1;
      assert failed > 0 ==> Doubled(failed) == 2 * Doubled(failed - 1);
    }
  }

  /** Each wait is one second after an accepted connection, else twice the one before, up to thirty. */
  ghost predicate BacksOff(cs: seq<Connection>, ws: seq<nat>) {
    && |ws| == |cs|
    && forall i :: 0 <= i < |cs| ==>
         ws[i] == if cs[i].Accepted? || i == 0 then 1 else if ws[i - 1] < 15 then 2 * ws[i - 1] else 30
  }

  lemma BacksOffMore(cs: seq<Connection>, ws: seq<nat>, c: Connection, w: nat)
    requires BacksOff(cs, ws)
    requires w == if c.Accepted? || cs == [] then 1 else if ws[|ws| - 1] < 15 then 2 * ws[|ws| - 1] else 30
    ensures BacksOff(cs + [c], ws + [w])
  {
    var cs', ws' := cs + [c], ws + [w];
    forall i | 0 <= i < |cs'|
      ensures ws'[i] == if cs'[i].Accepted? || i == 0 then 1 else if ws'[i - 1] < 15 then 2 * ws'[i - 1] else 30
    {
      assert i > 0 ==> ws'[i - 1] == ws[i - 1];
      if i < |cs| {
        assert ws'[i] == ws[i] && cs'[i] == cs[i];
      } else {
        assert ws'[i] == w && cs'[i] == c;
      }
    }
  }

  lemma {:induction false} WaitsBackOff(cs: seq<Connection>)
    ensures BacksOff(cs, Waits(cs)) && (cs != [] ==> Waits(cs)[|cs| - 1] == WaitAfter(cs))
  {
    if cs != [] {
      var before, last := cs[..|cs| - 1], cs[|cs| - 1];
      WaitsBackOff(before);
      NextWait(before, last);
      assert cs == before + [last];
      BacksOffMore(before, Waits(before), last, WaitAfter(cs));
    }
  }

  lemma {:induction false} FailedBound(cs: seq<Connection>)
    ensures FailedInARow(cs) <= |cs|
  {
    if cs != [] && cs[|cs| - 1].Refused? {
      FailedBound(cs[..|cs| - 1]);
    }
  }

  // --- The server's side of the protocol ---

  /** The position of the event with this id, or the length of the log. */
  function Position(log: seq<Source>, id: string): (i: nat)
    ensures i <= |log|
    ensures i < |log| ==> log[i].id == id
    ensures forall k :: 0 <= k < i ==> log[k].id != id
  {
    if log == [] || log[0].id == id then 0 else 1 + Position(log[1..], id)
  }

  /** What the server sends for a Last-Event-ID: what follows that event, or everything if there is none. */
  function After(log: seq<Source>, id: string): seq<Source> {
    var i := Position(log, id);
    if id == "" || i == |log| then log else log[i + 1..]
  }

  /** Every event with data has an id, and one that no event before it has. */
  ghost predicate Identified(log: seq<Source>) {
    forall k: nat :: k < |log| && log[k].data != [] ==> IsNew(log, k)
  }

  ghost predicate IsNew(log: seq<Source>, k: nat)
    requires k < |log|
  {
    log[k].id != "" && forall j :: 0 <= j < k ==> log[j].id != log[k].id
  }

  /** The server answers an accepted connection with the printed events that follow the id it was sent. */
  ghost predicate Honest(log: seq<Source>, lastEventID: string, c: Connection) {
    c.Accepted? ==>
      && c.visible <= |log|
      && AllClean(c.lines)
      && NoComments(c.lines) == PrintAll(After(log[..c.visible], lastEventID))
  }

  /** How much of the log the server has shown so far. */
  function Visible(cs: seq<Connection>): nat {
    if cs == [] then 0
    else if cs[|cs| - 1].Accepted? then cs[|cs| - 1].visible
    else Visible(cs[..|cs| - 1])
  }

  /** Every connection is honest, and the server never loses events it had. */
  ghost predicate HonestRun(log: seq<Source>, cs: seq<Connection>) {
    cs == []
    || (var before, last := cs[..|cs| - 1], cs[|cs| - 1];
        && HonestRun(log, before)
        && Honest(log, ConnectAll(before).lastEventID, last)
        && Visible(before) <= Visible(cs))
  }

  // --- One connection ---

  /** Nothing is cut off and no line is too long for the scanner. */
  ghost predicate Complete(c: Connection) {
    c.Accepted? && AllShort(c.lines) && c.received >= |Text(c.lines)|
  }

  /** Reading the connection hands over these events and ends on the id of the last. */
  ghost predicate Delivers(c: Connection, es: seq<Source>)
    requires c.Accepted?
  {
    var p := FeedAll(Fresh, Scan(Received(c)));
    p.delivered == Intended(es) && p.lastEventID == LastId(es)
  }

  lemma ReceivedLines(c: Connection) returns (k: nat, piece: seq<string>)
    requires c.Accepted? && AllClean(c.lines)
    ensures k <= |c.lines| && Scan(Received(c)) == c.lines[..k] + piece && "" !in piece
    ensures (Complete(c) ==> k == |c.lines|) && AllShort(c.lines[..k])
  {
    var text := Text(c.lines);
    if Complete(c) {
      ScanText(c.lines);
      k, piece := |c.lines|, [];
    } else {
      assert text[..|text|] == text;
      k, piece := CutScan(c.lines, if c.received < |text| then c.received else |text|);
    }
  }

  /** Every printed line fits the scanner. */
  ghost predicate Fits(es: seq<Source>) {
    forall i :: 0 <= i < |es| ==> AllShort(Print(es[i]))
  }

  lemma {:induction false} NoCommentsShort(lines: seq<string>)
    requires AllShort(lines)
    ensures AllShort(NoComments(lines))
  {
    if lines != [] {
      NoCommentsShort(lines[..|lines| - 1]);
    }
  }

  lemma {:induction false} ShortFits(es: seq<Source>)
    requires AllShort(PrintAll(es))
    ensures Fits(es)
  {
    if es != [] {
      var before, e := es[..|es| - 1], es[|es| - 1];
      var n := |PrintAll(before)|;
      forall i | 0 <= i < n ensures |PrintAll(before)[i]| <= MAX_LINE {
        assert PrintAll(es)[i] == PrintAll(before)[i];
      }
      ShortFits(before);
      forall i | 0 <= i < |Print(e)| ensures |Print(e)[i]| <= MAX_LINE {
        assert PrintAll(es)[n + i] == Print(e)[i];
      }
    }
  }

  /**
   A connection cut at any byte delivers exactly the first q of the events it was meant to bring, none of
   which has a line too long for the scanner.
   */
  lemma CutConnection(es: seq<Source>, c: Connection) returns (q: nat)
    requires c.Accepted? && AllClean(c.lines) && NoComments(c.lines) == PrintAll(es)
    ensures q <= |es| && (Complete(c) ==> q == |es|)
    ensures Delivers(c, es[..q]) && Fits(es[..q])
  {
    var k, piece := ReceivedLines(c);
    FedWithPiece(c.lines[..k], piece);
    var m := CutPrinted(es, c.lines, k);
    q := PrintedPrefix(es, m);
    NoCommentsShort(c.lines[..k]);
    ShortPart(es, m, q);
  }

  lemma ShortPart(es: seq<Source>, m: nat, q: nat)
    requires q <= |es| && |PrintAll(es[..q])| <= m <= |PrintAll(es)| && AllShort(PrintAll(es)[..m])
    ensures Fits(es[..q])
  {
    PrintedPart(es, q);
    var lines := PrintAll(es[..q]);
    forall i | 0 <= i < |lines| ensures |lines[i]| <= MAX_LINE {
      assert lines[i] == PrintAll(es)[i] == PrintAll(es)[..m][i];
    }
    ShortFits(es[..q]);
  }

  lemma CutPrinted(es: seq<Source>, lines: seq<string>, k: nat) returns (m: nat)
    requires k <= |lines| && NoComments(lines) == PrintAll(es)
    ensures m <= |PrintAll(es)| && (k == |lines| ==> m == |PrintAll(es)|)
    ensures NoComments(lines[..k]) == PrintAll(es)[..m]
  {
    NoCommentsPrefix(lines, k);
    assert lines[..|lines|] == lines;
    m := |NoComments(lines[..k])|;
  }

  lemma FedWithPiece(lines: seq<string>, piece: seq<string>)
    requires "" !in piece
    ensures FeedAll(Fresh, lines + piece).delivered == FeedAll(Fresh, NoComments(lines)).delivered
    ensures FeedAll(Fresh, lines + piece).lastEventID == FeedAll(Fresh, NoComments(lines)).lastEventID
  {
    FeedAllJoin(Fresh, lines, piece);
    NothingDispatched(FeedAll(Fresh, lines), piece);
    CommentsChangeNothing(Fresh, lines);
  }

  // --- Main results ---

  lemma {:induction false} LastIdJoin(a: seq<Source>, b: seq<Source>)
    ensures LastId(a + b) == if LastId(b) != "" then LastId(b) else LastId(a)
  {
    if b == [] {
      assert a + b == a;
    } else {
      LastIdJoin(a, b[..|b| - 1]);
      assert (a + b)[..|a + b| - 1] == a + b[..|b| - 1];
    }
  }

  /** Every event that is delivered has an id of its own. */
  ghost predicate Named(es: seq<Source>) {
    forall i :: 0 <= i < |es| && es[i].data != [] ==> es[i].id != ""
  }

  lemma {:induction false} IntendedJoin(a: seq<Source>, b: seq<Source>)
    requires Named(b)
    ensures Intended(a + b) == Intended(a) + Intended(b)
  {
    if b == [] {
      assert a + b == a;
    } else {
      var n := |b| - 1;
      IntendedJoin(a, b[..n]);
      assert (a + b)[..|a + b| - 1] == a + b[..n];
    }
  }

  lemma {:induction false} IntendedLength(es: seq<Source>)
    requires forall i :: 0 <= i < |es| ==> es[i].data != []
    ensures |Intended(es)| == |es|
  {
    if es != [] {
      IntendedLength(es[..|es| - 1]);
    }
  }

  lemma {:induction false} IntendedPrefix(es: seq<Source>, n: nat)
    requires n <= |es|
    ensures Intended(es[..n]) <= Intended(es)
  {
    if n == |es| {
      assert es[..n] == es;
    } else {
      assert es[..|es| - 1][..n] == es[..n];
      IntendedPrefix(es[..|es| - 1], n);
    }
  }

  /** The session has handed over the first m events of the log, and holds the latest id of them. */
  ghost predicate CaughtUp(log: seq<Source>, s: Session, m: nat)
    requires m <= |log|
  {
    s.delivered == Intended(log[..m]) && s.lastEventID == LastId(log[..m])
  }

  /** Behind the last event with data among the first m. */
  function Base(log: seq<Source>, m: nat): (b: nat)
    requires m <= |log|
    ensures b <= m && (b > 0 ==> log[b - 1].data != [])
  {
    if m == 0 || log[m - 1].data != [] then m else Base(log, m - 1)
  }

  /** Events without data make no difference to a session. */
  lemma {:induction false} BaseSame(log: seq<Source>, m: nat)
    requires m <= |log|
    ensures Intended(log[..Base(log, m)]) == Intended(log[..m]) && LastId(log[..Base(log, m)]) == LastId(log[..m])
  {
    if m > 0 && log[m - 1].data == [] {
      BaseSame(log, m - 1);
      assert log[..m][..m - 1] == log[..m - 1];
    }
  }

  lemma AfterNew(es: seq<Source>, k: nat)
    requires k < |es| && IsNew(es, k)
    ensures After(es, es[k].id) == es[k + 1..]
  {
    assert Position(es, es[k].id) == k;
  }

  lemma AfterLast(log: seq<Source>, visible: nat, m: nat)
    requires Identified(log) && m <= visible <= |log|
    ensures After(log[..visible], LastId(log[..m])) == log[Base(log, m)..visible]
  {
    var b := Base(log, m);
    BaseSame(log, m);
    if b > 0 {
      assert IsNew(log, b - 1);
      assert LastId(log[..b]) == log[b - 1].id;
      AfterNew(log[..visible], b - 1);
      assert log[..visible][b..] == log[b..visible];
    } else {
      assert log[..0] == [] && log[..visible] == log[0..visible];
    }
  }

  lemma NamedSlice(log: seq<Source>, i: nat, j: nat)
    requires Identified(log) && i <= j <= |log|
    ensures Named(log[i..j])
  {
    forall k | 0 <= k < j - i && log[i..j][k].data != [] ensures log[i..j][k].id != "" {
      assert IsNew(log, i + k);
    }
  }

  lemma Advance(before: seq<Source>, es: seq<Source>, s: Session, c: Connection)
    requires c.Accepted? && Named(es) && Delivers(c, es)
    requires s.delivered == Intended(before) && s.lastEventID == LastId(before)
    ensures Connect(s, c) == Session(LastId(before + es), Intended(before + es))
  {
    IntendedJoin(before, es);
    LastIdJoin(before, es);
  }

  lemma CaughtUpBy(log: seq<Source>, s: Session, c: Connection, m: nat, m': nat)
    requires Identified(log) && c.Accepted? && m <= m' <= |log|
    requires CaughtUp(log, s, m) && Delivers(c, log[m..m'])
    ensures CaughtUp(log, Connect(s, c), m')
  {
    NamedSlice(log, m, m');
    Advance(log[..m], log[m..m'], s, c);
    TakeMore(log, m, m');
  }

  lemma TakeMore(log: seq<Source>, m: nat, m': nat)
    requires m <= m' <= |log|
    ensures log[..m] + log[m..m'] == log[..m']
  {
  }

  lemma Meant(log: seq<Source>, s: Session, c: Connection, m: nat)
    requires Identified(log) && c.Accepted? && m <= c.visible
    requires Honest(log, s.lastEventID, c) && CaughtUp(log, s, m)
    ensures AllClean(c.lines) && NoComments(c.lines) == PrintAll(log[Base(log, m)..c.visible])
    ensures CaughtUp(log, s, Base(log, m))
  {
    AfterLast(log, c.visible, m);
    BaseSame(log, m);
  }

  lemma Slices(log: seq<Source>, m: nat, v: nat, q: nat)
    requires m + q <= v <= |log|
    ensures log[m..v][..q] == log[m..m + q]
  {
  }

  lemma CutMeant(log: seq<Source>, c: Connection, m: nat) returns (m': nat)
    requires c.Accepted? && m <= c.visible <= |log|
    requires AllClean(c.lines) && NoComments(c.lines) == PrintAll(log[m..c.visible])
    ensures m <= m' <= c.visible && (Complete(c) ==> m' == c.visible)
    ensures Delivers(c, log[m..m']) && Fits(log[m..m'])
  {
    var q := CutConnection(log[m..c.visible], c);
    m' := m + q;
    Slices(log, m, c.visible, q);
  }

  lemma CaughtUpStep(log: seq<Source>, s: Session, c: Connection, m: nat) returns (m': nat)
    requires Identified(log) && c.Accepted? && m <= c.visible <= |log|
    requires Honest(log, s.lastEventID, c) && CaughtUp(log, s, m) && Fits(log[..m])
    ensures m' <= c.visible && CaughtUp(log, Connect(s, c), m') && Fits(log[..m'])
    ensures Complete(c) ==> m' == c.visible
  {
    Meant(log, s, c, m);
    m' := CutMeant(log, c, Base(log, m));
    CaughtUpBy(log, s, c, Base(log, m), m');
    FitsOn(log, m, Base(log, m), m');
  }

  lemma FitsOn(log: seq<Source>, m: nat, b: nat, m': nat)
    requires b <= m <= |log| && b <= m' <= |log| && Fits(log[..m]) && Fits(log[b..m'])
    ensures Fits(log[..m'])
  {
    forall i | 0 <= i < m' ensures AllShort(Print(log[i])) {
      if i < m {
        assert log[..m][i] == log[i];
      } else {
        assert log[b..m'][i - b] == log[i];
      }
    }
  }

  /**
   Exactly once. Whatever connections are refused and wherever the others are cut, the events handed
   over are those of the first m of the log, in order, with none missing and none twice; the next
   Last-Event-ID is the latest id of them; a connection that ends uncut hands over all that was visible; and
   no event was handed over that has a line too long for the scanner.
   */
  lemma {:induction false} ExactlyOnce(log: seq<Source>, cs: seq<Connection>) returns (m: nat)
    requires Identified(log) && HonestRun(log, cs)
    ensures m <= Visible(cs) <= |log| && CaughtUp(log, ConnectAll(cs), m) && Fits(log[..m])
    ensures cs != [] && Complete(cs[|cs| - 1]) ==> m == cs[|cs| - 1].visible
  {
    m := 0;
    if cs == [] {
      assert log[..0] == [];
    } else {
      var n := |cs| - 1;
      m := ExactlyOnce(log, cs[..n]);
      if cs[n].Accepted? {
        m := CaughtUpStep(log, ConnectAll(cs[..n]), cs[n], m);
      }
    }
  }

  /** The i-th connection is asked to resume after the latest event handed over by the ones before it. */
  lemma {:induction false} SentIdsFollow(log: seq<Source>, cs: seq<Connection>, i: nat) returns (m: nat)
    requires Identified(log) && HonestRun(log, cs) && i < |cs|
    ensures m <= |log| && |SentIds(cs)| == |cs|
    ensures SentIds(cs)[i] == LastId(log[..m]) && ConnectAll(cs[..i]).delivered == Intended(log[..m])
  {
    var n := |cs| - 1;
    if i == n {
      m := ExactlyOnce(log, cs[..n]);
      SentIdsLength(cs[..n]);
    } else {
      m := SentIdsFollow(log, cs[..n], i);
      assert cs[..n][..i] == cs[..i];
    }
  }

  lemma {:induction false} SentIdsLength(cs: seq<Connection>)
    ensures |SentIds(cs)| == |cs|
  {
    if cs != [] {
      SentIdsLength(cs[..|cs| - 1]);
    }
  }

  /** If every event has data, m events were handed over, and the id sent next is that of the last. */
  lemma WithDataThroughout(log: seq<Source>, s: Session, m: nat)
    requires Identified(log) && m <= |log| && CaughtUp(log, s, m)
    requires forall i :: 0 <= i < |log| ==> log[i].data != []
    ensures |s.delivered| == m && s.lastEventID == if m == 0 then "" else log[m - 1].id
  {
    IntendedLength(log[..m]);
    if m > 0 {
      assert IsNew(log, m - 1) && log[..m][m - 1] == log[m - 1];
    }
  }

  lemma FitsUpTo(log: seq<Source>, m: nat, k: nat)
    requires m <= |log| && k < |log| && Fits(log[..m]) && !AllShort(Print(log[k]))
    ensures m <= k
  {
    forall i | 0 <= i < m ensures AllShort(Print(log[i])) {
      assert log[..m][i] == log[i];
    }
  }

  /** Nothing gets past an event with a line too long for the scanner, however often the loop reconnects. */
  lemma {:induction false} StuckAtLongLine(log: seq<Source>, cs: seq<Connection>, k: nat)
    requires Identified(log) && HonestRun(log, cs)
    requires k < |log| && !AllShort(Print(log[k]))
    ensures ConnectAll(cs).delivered <= Intended(log[..k])
  {
    var m := ExactlyOnce(log, cs);
    FitsUpTo(log, m, k);
    IntendedPrefix(log[..k], m);
    assert log[..k][..m] == log[..m];
  }

  /** What was handed over is a beginning of what there was to hand over. */
  ghost predicate InOrderOnce(log: seq<Source>, cs: seq<Connection>) {
    Visible(cs) <= |log| && ConnectAll(cs).delivered <= Intended(log[..Visible(cs)])
  }

  lemma {:induction false} IdentifiedIsOnce(log: seq<Source>, cs: seq<Connection>)
    requires Identified(log) && HonestRun(log, cs)
    ensures InOrderOnce(log, cs)
  {
    var m := ExactlyOnce(log, cs);
    IntendedPrefix(log[..Visible(cs)], m);
    assert log[..Visible(cs)][..m] == log[..m];
  }

  /** Cancelled at any line of a connection, the loop has handed over a beginning as well. */
  lemma {:induction false} CancelledIsOnce(log: seq<Source>, cs: seq<Connection>, c: Connection, cancelAt: nat)
    requires Identified(log) && HonestRun(log, cs + [c])
    ensures Visible(cs + [c]) <= |log|
    ensures Final(cs, Some((c, cancelAt))).delivered <= Intended(log[..Visible(cs + [c])])
  {
    IdentifiedIsOnce(log, cs + [c]);
    OneMore(cs, c);
    if c.Accepted? {
      InterruptedEarlier(ConnectAll(cs), c, cancelAt);
    }
  }

  lemma InterruptedEarlier(s: Session, c: Connection, cancelAt: nat)
    requires c.Accepted?
    ensures Interrupt(s, c, cancelAt).delivered <= Connect(s, c).delivered
  {
    var lines := Scan(Received(c));
    if cancelAt < |lines| {
      FewerLines(Fresh, lines, cancelAt);
    }
  }

  // --- What the ids are for ---

  /** The fields hold no line breaks, and the printed lines fit the scanner. */
  ghost predicate Printable(es: seq<Source>) {
    forall i :: 0 <= i < |es| ==> AllClean(Print(es[i])) && AllShort(Print(es[i]))
  }

  lemma {:induction false} PrintableLines(es: seq<Source>)
    requires Printable(es)
    ensures AllClean(PrintAll(es)) && AllShort(PrintAll(es))
  {
    if es != [] {
      PrintableLines(es[..|es| - 1]);
    }
  }

  /** A server that shows the first n events, and prints in full those after the id it is sent. */
  function Served(log: seq<Source>, n: nat, lastEventID: string): Connection
    requires n <= |log|
  {
    var lines := PrintAll(After(log[..n], lastEventID));
    Accepted(n, lines, |Text(lines)|)
  }

  lemma {:induction false} NoneAreComments(lines: seq<string>)
    requires forall i :: 0 <= i < |lines| ==> !(":" <= lines[i])
    ensures NoComments(lines) == lines
  {
    if lines != [] {
      NoneAreComments(lines[..|lines| - 1]);
    }
  }

  lemma PrintedLine(e: Source, i: nat)
    requires i < |Print(e)|
    ensures !(":" <= Print(e)[i])
  {
    var line := Print(e)[i];
    var h := |Header(e)|;
    assert line == if i < h then Header(e)[i] else if i < h + |e.data| then "data: " + e.data[i - h] else "";
    assert line == "" || line[0] == 'e' || line[0] == 'i' || line[0] == 'd';
  }

  lemma {:induction false} PrintedHasNoComments(es: seq<Source>)
    ensures forall i :: 0 <= i < |PrintAll(es)| ==> !(":" <= PrintAll(es)[i])
  {
    if es != [] {
      var before, e := es[..|es| - 1], es[|es| - 1];
      PrintedHasNoComments(before);
      forall i | 0 <= i < |Print(e)| ensures !(":" <= Print(e)[i]) {
        PrintedLine(e, i);
      }
    }
  }

  lemma PrintableAfter(log: seq<Source>, n: nat, lastEventID: string)
    requires Printable(log) && n <= |log|
    ensures Printable(After(log[..n], lastEventID))
  {
  }

  lemma ServedIsHonest(log: seq<Source>, n: nat, lastEventID: string)
    requires Printable(log) && n <= |log|
    ensures Honest(log, lastEventID, Served(log, n, lastEventID))
  {
    var es := After(log[..n], lastEventID);
    PrintableAfter(log, n, lastEventID);
    PrintableLines(es);
    PrintedHasNoComments(es);
    NoneAreComments(PrintAll(es));
  }

  lemma ServedDelivers(log: seq<Source>, n: nat, s: Session)
    requires Printable(log) && n <= |log|
    ensures var es := After(log[..n], s.lastEventID);
            var s' := Connect(s, Served(log, n, s.lastEventID));
            && s'.delivered == s.delivered + Intended(es)
            && s'.lastEventID == if LastId(es) != "" then LastId(es) else s.lastEventID
  {
    PrintableAfter(log, n, s.lastEventID);
    PrintableLines(After(log[..n], s.lastEventID));
    TextRoundTrip(After(log[..n], s.lastEventID));
  }

  /** Twice the first n events, the second time after the latest id of the first. */
  function Twice(log: seq<Source>, n: nat): seq<Connection>
    requires n <= |log|
  {
    [Served(log, n, "")] + [Served(log, n, LastId(log[..n]))]
  }

  lemma ServedOnce(log: seq<Source>, n: nat)
    requires Printable(log) && n <= |log|
    ensures ConnectAll([Served(log, n, "")]) == Session(LastId(log[..n]), Intended(log[..n]))
    ensures HonestRun(log, [Served(log, n, "")]) && Visible([Served(log, n, "")]) == n
  {
    var a := Served(log, n, "");
    ServedIsHonest(log, n, "");
    ServedDelivers(log, n, Session("", []));
    assert [a][..0] == [] && [] + Intended(log[..n]) == Intended(log[..n]);
  }

  lemma HonestMore(log: seq<Source>, cs: seq<Connection>, c: Connection)
    requires HonestRun(log, cs) && c.Accepted? && Honest(log, ConnectAll(cs).lastEventID, c) && Visible(cs) <= c.visible
    ensures HonestRun(log, cs + [c]) && Visible(cs + [c]) == c.visible
  {
    assert (cs + [c])[..|cs|] == cs;
  }

  /** One more connection to the same server. */
  lemma ServedMore(log: seq<Source>, n: nat, cs: seq<Connection>)
    requires Printable(log) && n <= |log| && HonestRun(log, cs) && Visible(cs) == n
    ensures var s, c := ConnectAll(cs), Served(log, n, ConnectAll(cs).lastEventID);
            && HonestRun(log, cs + [c]) && Visible(cs + [c]) == n
            && ConnectAll(cs + [c]).delivered == s.delivered + Intended(After(log[..n], s.lastEventID))
  {
    var c := Served(log, n, ConnectAll(cs).lastEventID);
    ServedIsHonest(log, n, ConnectAll(cs).lastEventID);
    HonestMore(log, cs, c);
    OneMore(cs, c);
    ServedDelivers(log, n, ConnectAll(cs));
  }

  lemma {:induction false} ServedTwice(log: seq<Source>, n: nat)
    requires Printable(log) && n <= |log|
    ensures HonestRun(log, Twice(log, n)) && Visible(Twice(log, n)) == n
    ensures ConnectAll(Twice(log, n)).delivered == Intended(log[..n]) + Intended(After(log[..n], LastId(log[..n])))
  {
    ServedOnce(log, n);
    ServedMore(log, n, [Served(log, n, "")]);
  }

  /** The id remembered after an event that is not new points before it, so the event is sent again. */
  lemma SentAgain(log: seq<Source>, k: nat)
    requires k < |log| && log[k].data != [] && !IsNew(log, k)
    ensures var rest := After(log[..k + 1], LastId(log[..k + 1]));
            rest != [] && rest[|rest| - 1] == log[k]
  {
    assert log[..k + 1][k] == log[k];
  }

  lemma LastIsIntended(es: seq<Source>)
    requires es != [] && es[|es| - 1].data != []
    ensures Intended(es) != []
  {
  }

  lemma {:induction false} NotNewIsNotOnce(log: seq<Source>, k: nat)
    requires Printable(log) && k < |log| && log[k].data != [] && !IsNew(log, k)
    ensures HonestRun(log, Twice(log, k + 1)) && !InOrderOnce(log, Twice(log, k + 1))
  {
    ServedTwice(log, k + 1);
    SentAgain(log, k);
    LastIsIntended(After(log[..k + 1], LastId(log[..k + 1])));
  }

  /**
   For events that can be printed: whatever an honest server and the network do, the handler is given
   each event in order and once, if and only if every event with data has an id that none before it has.
   */
  lemma {:induction false} ExactlyOnceIff(log: seq<Source>)
    requires Printable(log)
    ensures (forall cs :: HonestRun(log, cs) ==> InOrderOnce(log, cs)) <==> Identified(log)
  {
    if Identified(log) {
      forall cs | HonestRun(log, cs) ensures InOrderOnce(log, cs) {
        IdentifiedIsOnce(log, cs);
      }
    } else {
      var k: nat :| k < |log| && log[k].data != [] && !IsNew(log, k);
      NotNewIsNotOnce(log, k);
    }
  }
}
