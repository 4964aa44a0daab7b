/**
 The other three readers of a channel (ssh-transport/src/lib.rs): the shell pump, the blocking
 SshSpikeChannel::read, and the banner probe; and how all four agree.
 */
module Consumers {
  import opened Wrappers
  import opened Bytes
  import opened MessageStream
  import Exec

  // ----- pump

  datatype Event = DataEvent(data: seq<byte>) | StatusEvent(code: nat) | Closed | Died

  predicate Terminal(e: Event) {
    e.Closed? || e.Died?
  }

  /** The foreign sink: every event handed to it, in order. */
  class EventSink {
    var events: seq<Event>

    constructor ()
      ensures events == []
    {
      events := [];
    }

    method OnEvent(e: Event)
      modifies this
      ensures events == old(events) + [e]
    {
      events := events + [e];
    }
  }

  /** The events of one message: bytes and statuses in their own form, nothing for Eof and the rest. */
  function Image(m: Msg): (e: seq<Event>) {
    match m
    case Data(data) => [DataEvent(data)]
    case ExtendedData(_, data) => [DataEvent(data)]
    case ExitStatus(code) => [StatusEvent(code)]
    case _ => []
  }

  function Images(a: seq<Arrival>): (e: seq<Event>) {
    if a == [] then [] else Images(a[..|a| - 1]) + Image(a[|a| - 1].msg)
  }

  /** Everything pump emits: the image of what precedes the first Close, then how the channel ended. */
  function Emitted(s: Script): (e: seq<Event>) {
    Images(BeforeClose(s))
    + (if HasClose(s) then [Closed] else if s.ending.Ends? then [Died] else [])
  }

  /** What pump still has to emit when it has handled the first i messages. */
  lemma PumpStep(s: Script, i: nat)
    requires i <= CloseIndex(s)
    ensures var a := s.arrivals;
            if i == |a| then
              Emitted(s) == Images(a[..i]) + (if s.ending.Ends? then [Died] else [])
            else if a[i].msg.Close? then
              Emitted(s) == Images(a[..i]) + [Closed]
            else
              i < CloseIndex(s) && Images(a[..i + 1]) == Images(a[..i]) + Image(a[i].msg)
  {
    CloseIndexIsClose(s);
    assert i < |s.arrivals| ==> s.arrivals[..i + 1][..i] == s.arrivals[..i];
  }

  lemma Joined(x: seq<Event>, y: seq<Event>, z: seq<Event>)
    ensures (x + y) + z == x + (y + z) && x + (y + []) == x + y
  {
  }

  method Pump(readHalf: Stream, sink: EventSink)
    requires readHalf.Valid() && readHalf.pos == 0
    modifies readHalf, sink
    ensures sink.events == old(sink.events) + Emitted(readHalf.script)
  {
    ghost var s := readHalf.script;
    ghost var before := sink.events;
    assert Images(s.arrivals[..0]) == [];
    hide Emitted, Images, CloseIndex;
    while true
      invariant readHalf.Valid() && readHalf.pos <= CloseIndex(s)
      invariant sink.events == before + Images(s.arrivals[..readHalf.pos])
      decreases |s.arrivals| - readHalf.pos
    {
      ghost var done := Images(s.arrivals[..readHalf.pos]);
      PumpStep(s, readHalf.pos);
      var wake := readHalf.Wait(None);
      match wake {
        case Blocked =>
          return;
        case Ended =>
          Joined(before, done, [Died]);
          sink.OnEvent(Died);
          return;
        case TimedOut =>
          assert false;
        case Got(m) =>
          Joined(before, done, if m.Close? then [Closed] else Image(m));
          match m {
            case Data(data) => sink.OnEvent(DataEvent(data));
            case ExtendedData(_, data) => sink.OnEvent(DataEvent(data));
            case ExitStatus(code) => sink.OnEvent(StatusEvent(code));
            case Close =>
              sink.OnEvent(Closed);
              return;
            case _ =>
          }
      }
    }
  }

  lemma {:induction false} ImagesAreNotTerminal(a: seq<Arrival>)
    ensures forall i :: 0 <= i < |Images(a)| ==> !Terminal(Images(a)[i])
  {
    if a != [] {
      ImagesAreNotTerminal(a[..|a| - 1]);
    }
  }

  lemma {:induction false} ImagesAppend(a: seq<Arrival>, b: seq<Arrival>)
    ensures Images(a + b) == Images(a) + Images(b)
  {
    if b == [] {
      assert a + b == a;
    } else {
      assert (a + b)[..|a + b| - 1] == a + b[..|b| - 1];
      ImagesAppend(a, b[..|b| - 1]);
    }
  }

  /**
   A terminal event is only ever the last one. It is Closed exactly when a Close is consumed and
   Died exactly when the stream ends without one.
   */
  lemma TerminalComesLast(s: Script)
    ensures var e := Emitted(s);
            && (forall i :: 0 <= i < |e| && Terminal(e[i]) ==> i == |e| - 1)
            && (Closed in e <==> HasClose(s))
            && (Died in e <==> !HasClose(s) && s.ending.Ends?)
            && ((exists i :: 0 <= i < |e| && Terminal(e[i])) <==> HasClose(s) || s.ending.Ends?)
  {
    var front, e := Images(BeforeClose(s)), Emitted(s);
    ImagesAreNotTerminal(BeforeClose(s));
    assert Closed !in front && Died !in front by {
      assert forall x :: x in front ==> !Terminal(x);
    }
    if HasClose(s) || s.ending.Ends? {
      assert Terminal(e[|front|]);
    }
  }

  /** A message that has an event of its own. */
  predicate HasEvent(m: Msg) {
    m.Data? || m.ExtendedData? || m.ExitStatus?
  }

  /** The event e reports the message m: its data, of either kind, or its code. */
  predicate Reports(e: Event, m: Msg) {
    match m
    case Data(data) => e == DataEvent(data)
    case ExtendedData(_, data) => e == DataEvent(data)
    case ExitStatus(code) => e == StatusEvent(code)
    case _ => false
  }

  /** `at` lists, in order, all the messages of a that have an event; the events report them one for one. */
  ghost predicate OneForOne(e: seq<Event>, a: seq<Arrival>, at: seq<nat>) {
    && |e| == |at|
    && (forall k :: 0 <= k < |at| ==> at[k] < |a| && Reports(e[k], a[at[k]].msg))
    && (forall k, l :: 0 <= k < l < |at| ==> at[k] < at[l])
    && (forall i: nat :: i < |a| && HasEvent(a[i].msg) ==> i in at)
  }

  lemma NothingReported()
    ensures OneForOne([], [], [])
  {
  }

  lemma NextReported(e: seq<Event>, a: seq<Arrival>, at: seq<nat>, x: Event, m: Arrival)
    requires OneForOne(e, a, at) && Reports(x, m.msg)
    ensures OneForOne(e + [x], a + [m], at + [|a|])
  {
    var more := at + [|a|];
    assert more[|at|] == |a|;
    forall i: nat | i < |a + [m]| && HasEvent((a + [m])[i].msg) ensures i in more {
      assert i < |a| ==> i in at;
    }
  }

  lemma NextSkipped(e: seq<Event>, a: seq<Arrival>, at: seq<nat>, m: Arrival)
    requires OneForOne(e, a, at) && !HasEvent(m.msg)
    ensures OneForOne(e, a + [m], at)
  {
  }

  lemma {:induction false} ImagesMatch(a: seq<Arrival>) returns (at: seq<nat>)
    ensures OneForOne(Images(a), a, at)
  {
    hide OneForOne;
    at := [];
    if a == [] {
      NothingReported();
    } else {
      var front, last := a[..|a| - 1], a[|a| - 1];
      at := ImagesMatch(front);
      assert front + [last] == a;
      if HasEvent(last.msg) {
        NextReported(Images(front), front, at, Image(last.msg)[0], last);
        assert Images(a) == Images(front) + [Image(last.msg)[0]];
        at := at + [|front|];
      } else {
        NextSkipped(Images(front), front, at, last);
        assert Images(a) == Images(front) + [] == Images(front);
      }
    }
  }

  /**
   pump reports the messages before the Close one for one and in order: the k-th event is the k-th
   Data, ExtendedData or ExitStatus message's own data or code. After them comes Closed, Died, or, on a
   silent stream, nothing.
   */
  lemma EventsMatchMessages(s: Script) returns (at: seq<nat>)
    ensures |at| <= |Emitted(s)| && OneForOne(Emitted(s)[..|at|], BeforeClose(s), at)
    ensures Emitted(s)[|at|..] == if HasClose(s) then [Closed] else if s.ending.Ends? then [Died] else []
  {
    at := ImagesMatch(BeforeClose(s));
    hide Images;
    assert Emitted(s)[..|at|] == Images(BeforeClose(s));
  }

  function EventBytes(e: seq<Event>): (bytes: seq<byte>) {
    if e == [] then []
    else EventBytes(e[..|e| - 1]) + (if e[|e| - 1].DataEvent? then e[|e| - 1].data else [])
  }

  lemma {:induction false} EventBytesAppend(d: seq<Event>, e: seq<Event>)
    ensures EventBytes(d + e) == EventBytes(d) + EventBytes(e)
  {
    if e == [] {
      assert d + e == d;
    } else {
      assert (d + e)[..|d + e| - 1] == d + e[..|e| - 1];
      EventBytesAppend(d, e[..|e| - 1]);
    }
  }

  lemma {:induction false} ImagesCarryText(a: seq<Arrival>)
    ensures EventBytes(Images(a)) == TextOf(a)
  {
    if a != [] {
      var front, e := a[..|a| - 1], Image(a[|a| - 1].msg);
      ImagesCarryText(front);
      EventBytesAppend(Images(front), e);
      assert e == [] || e[..0] == [];
    }
  }

  /** The terminal event, if there is one, carries no bytes. */
  lemma LastCarriesNothing(last: Event)
    requires Terminal(last)
    ensures EventBytes([last]) == [] == EventBytes([])
  {
    assert [last][..0] == [];
  }

  /** pump delivers every byte, of both kinds, that precedes the Close. */
  lemma PumpDelivers(s: Script)
    ensures EventBytes(Emitted(s)) == TextOf(BeforeClose(s))
  {
    hide EventBytes, Images, BeforeClose, HasClose;
    var last := if HasClose(s) then [Closed] else if s.ending.Ends? then [Died] else [];
    ImagesCarryText(BeforeClose(s));
    EventBytesAppend(Images(BeforeClose(s)), last);
    LastCarriesNothing(Closed);
    LastCarriesNothing(Died);
  }

  /** Eof (or any message pump ignores) may stand anywhere without changing what is emitted. */
  lemma EofIsInvisible(x: seq<Arrival>, eof: Arrival, y: seq<Arrival>, ending: Ending)
    requires eof.msg.Eof? || eof.msg.Other?
    ensures Emitted(Script(x + [eof] + y, ending)) == Emitted(Script(x + y, ending))
  {
    assert !HasClose(Script([eof], ending));
    hide Images, BeforeClose, HasClose;
    assert x + [eof] + y == x + ([eof] + y);
    CloseSplit(x, [eof] + y, ending);
    CloseSplit([eof], y, ending);
    CloseSplit(x, y, ending);
    if !HasClose(Script(x, ending)) {
      ImagesWithout(x, eof, BeforeClose(Script(y, ending)));
    }
  }

  lemma ImagesWithout(x: seq<Arrival>, eof: Arrival, y: seq<Arrival>)
    requires Image(eof.msg) == []
    ensures Images(x + ([eof] + y)) == Images(x + y)
  {
    ImagesAppend(x, [eof] + y);
    ImagesAppend([eof], y);
    ImagesAppend(x, y);
    ImagesOfOne(eof);
    assert Images([eof] + y) == Images(y);
  }

  lemma ImagesOfOne(m: Arrival)
    ensures Images([m]) == Image(m.msg)
  {
    assert [m][..0] == [];
  }

  // ----- SshSpikeChannel::read

  /** The messages that make read return. */
  predicate Answers(m: Msg) {
    CarriesBytes(m) || m.Eof? || m.Close?
  }

  /** The chunk read returns for such a message: empty for both Eof and Close. */
  function Answer(m: Msg): (chunk: seq<byte>)
    requires Answers(m)
  {
    if CarriesBytes(m) then m.data else []
  }

  /** The first message at or after p that makes read return, or the number of messages. */
  function AnswerFrom(s: Script, p: nat): (k: nat)
    requires p <= |s.arrivals|
    ensures p <= k <= |s.arrivals|
    ensures forall i :: p <= i < k ==> !Answers(s.arrivals[i].msg)
    ensures k < |s.arrivals| ==> Answers(s.arrivals[k].msg)
    decreases |s.arrivals| - p
  {
    if p == |s.arrivals| || Answers(s.arrivals[p].msg) then p else AnswerFrom(s, p + 1)
  }

  /** SshSpikeChannel::read: skip messages until one answers; a finished stream reads as empty. */
  method Read(readHalf: Stream) returns (r: Outcome<seq<byte>>)
    requires readHalf.Valid()
    modifies readHalf
    ensures readHalf.Valid()
    ensures var a, p, q := readHalf.script.arrivals, old(readHalf.pos), readHalf.pos;
            && p <= q
            && (forall i :: p <= i < q - 1 ==> a[i].msg.ExitStatus? || a[i].msg.Other?)
            && (if q > p && !a[q - 1].msg.ExitStatus? && !a[q - 1].msg.Other? then
                  r == Returns(match a[q - 1].msg
                               case Data(data) => data
                               case ExtendedData(_, data) => data
                               case _ => [])
                else
                  q == |a| && r == if readHalf.script.ending.Ends? then Returns([]) else Hangs)
    ensures var a, k := readHalf.script.arrivals, AnswerFrom(readHalf.script, old(readHalf.pos));
            if k < |a| then
              r == Returns(Answer(a[k].msg)) && readHalf.pos == k + 1
            else
              r == (if readHalf.script.ending.Ends? then Returns([]) else Hangs) && readHalf.pos == k
  {
    ghost var s, k := readHalf.script, AnswerFrom(readHalf.script, readHalf.pos);
    while true
      invariant readHalf.Valid() && AnswerFrom(s, readHalf.pos) == k && old(readHalf.pos) <= readHalf.pos
      invariant forall i :: old(readHalf.pos) <= i < readHalf.pos ==> s.arrivals[i].msg.ExitStatus? || s.arrivals[i].msg.Other?
      decreases |s.arrivals| - readHalf.pos
    {
      var wake := readHalf.Wait(None);
      match wake {
        case Blocked =>
          return Hangs;
        case Ended =>
          return Returns([]);
        case TimedOut =>
          assert false;
        case Got(m) =>
          match m {
            case Data(data) => return Returns(data);
            case ExtendedData(_, data) => return Returns(data);
            case Eof => return Returns([]);
            case Close => return Returns([]);
            case _ =>
          }
      }
    }
  }

  /** Repeated reads see their first empty chunk here. */
  predicate ReadsEmpty(m: Msg) {
    Answers(m) && Answer(m) == []
  }

  function EmptyFrom(s: Script, i: nat): (e: nat)
    requires i <= |s.arrivals|
    ensures i <= e <= |s.arrivals|
    ensures forall j :: i <= j < e ==> !ReadsEmpty(s.arrivals[j].msg)
    ensures e < |s.arrivals| ==> ReadsEmpty(s.arrivals[e].msg)
    decreases |s.arrivals| - i
  {
    if i == |s.arrivals| || ReadsEmpty(s.arrivals[i].msg) then i else EmptyFrom(s, i + 1)
  }

  function EmptyIndex(s: Script): (e: nat)
    ensures e <= |s.arrivals|
  {
    EmptyFrom(s, 0)
  }

  /** What a caller that reads until the first empty chunk collects. */
  function ReadText(s: Script): (bytes: seq<byte>) {
    TextOf(s.arrivals[..EmptyIndex(s)])
  }

  /** The caller's loop: read until an empty chunk says that the remote side is done. */
  method ReadUntilEmpty(readHalf: Stream) returns (total: seq<byte>, done: bool)
    requires readHalf.Valid() && readHalf.pos == 0
    modifies readHalf
    ensures total == ReadText(readHalf.script)
    ensures done <==> EmptyIndex(readHalf.script) < |readHalf.script.arrivals| || readHalf.script.ending.Ends?
  {
    ghost var s := readHalf.script;
    total, done := [], false;
    while true
      invariant readHalf.Valid() && readHalf.pos <= EmptyIndex(s)
      invariant total == TextOf(s.arrivals[..readHalf.pos])
      decreases |s.arrivals| - readHalf.pos
    {
      ReadStep(s, readHalf.pos);
      var r := Read(readHalf);
      if r == Hangs {
        break;
      }
      if r.value == [] {
        done := true;
        break;
      }
      total := total + r.value;
    }
  }

  /** What one more read adds, from any point before the first empty chunk. */
  lemma ReadStep(s: Script, p: nat)
    requires p <= EmptyIndex(s)
    ensures var a, k := s.arrivals, AnswerFrom(s, p);
            && k <= EmptyIndex(s)
            && TextOf(a[..k]) == TextOf(a[..p])
            && (k < |a| && Answer(a[k].msg) == [] ==> k == EmptyIndex(s))
            && (k < |a| && Answer(a[k].msg) != [] ==>
                  k < EmptyIndex(s) && TextOf(a[..k + 1]) == TextOf(a[..p]) + Answer(a[k].msg))
  {
    var a, k := s.arrivals, AnswerFrom(s, p);
    assert EmptyIndex(s) < |a| ==> Answers(a[EmptyIndex(s)].msg);
    SilentText(a, p, k);
    if k < |a| {
      TextOfStep(a, k);
    }
  }

  /** Messages that do not answer a read carry no bytes. */
  lemma {:induction false} SilentText(a: seq<Arrival>, p: nat, q: nat)
    requires p <= q <= |a|
    requires forall i :: p <= i < q ==> !Answers(a[i].msg)
    ensures TextOf(a[..q]) == TextOf(a[..p])
  {
    if p < q {
      SilentText(a, p, q - 1);
      TextOfStep(a, q - 1);
    }
  }

  lemma EmptyComesByClose(s: Script)
    ensures EmptyIndex(s) <= CloseIndex(s)
  {
    if CloseIndex(s) < |s.arrivals| {
      assert ReadsEmpty(s.arrivals[CloseIndex(s)].msg);
    }
  }

  /** An empty answer at i; later, still before the Close, bytes at j. */
  predicate HiddenAt(s: Script, i: nat, j: nat)
    requires i < j < |s.arrivals|
  {
    ReadsEmpty(s.arrivals[i].msg) && j < CloseIndex(s) && CarriesBytes(s.arrivals[j].msg) && s.arrivals[j].msg.data != []
  }

  lemma {:induction false} NoTextExactly(s: Script, i: nat, c: nat)
    requires i <= c <= |s.arrivals|
    ensures TextOf(s.arrivals[i..c]) == [] <==>
            forall j :: i <= j < c && CarriesBytes(s.arrivals[j].msg) ==> s.arrivals[j].msg.data == []
  {
    if i < c {
      NoTextExactly(s, i, c - 1);
      assert s.arrivals[i..c][..c - 1 - i] == s.arrivals[i..c - 1];
      assert TextOf(s.arrivals[i..c]) == TextOf(s.arrivals[i..c - 1])
             + (if CarriesBytes(s.arrivals[c - 1].msg) then s.arrivals[c - 1].msg.data else []);
    } else {
      assert s.arrivals[i..c] == [];
    }
  }

  /**
   Readers get what pump delivers exactly when no message that reads as empty stands, before the
   Close, in front of one with bytes.
   */
  lemma ReadAgreesExactly(s: Script)
    ensures ReadText(s) == EventBytes(Emitted(s)) <==> !exists i, j :: 0 <= i < j < |s.arrivals| && HiddenAt(s, i, j)
  {
    var a, e, c := s.arrivals, EmptyIndex(s), CloseIndex(s);
    EmptyComesByClose(s);
    PumpDelivers(s);
    TextOfSplit(a, e, c);
    NoTextExactly(s, e, c);
    if TextOf(a[e..c]) == [] {
      assert TextOf(a[..e]) + [] == TextOf(a[..e]);
      forall i, j | 0 <= i < j < |a| && ReadsEmpty(a[i].msg) && j < c && CarriesBytes(a[j].msg) ensures a[j].msg.data == [] {
        assert e <= i;
      }
    } else {
      var j :| e <= j < c && CarriesBytes(a[j].msg) && a[j].msg.data != [];
      assert HiddenAt(s, e, j);
      assert |TextOf(a[..c])| > |TextOf(a[..e])|;
    }
  }

  // ----- direct_tcpip_banner

  const BANNER_MIN: nat := 4

  /** The probe stops here: four bytes are in hand, the remote side is done, or the stream ended. */
  predicate BannerStopsAt(s: Script, i: nat)
    requires i <= |s.arrivals|
  {
    || |DataOf(s.arrivals[..i])| >= BANNER_MIN
    || (i < |s.arrivals| && (s.arrivals[i].msg.Close? || s.arrivals[i].msg.Eof?))
    || (i == |s.arrivals| && s.ending.Ends?)
  }

  function BannerStopFrom(s: Script, i: nat): (stop: Option<nat>)
    requires i <= |s.arrivals|
    requires forall j :: 0 <= j < i ==> !BannerStopsAt(s, j)
    ensures stop.Some? ==> i <= stop.value <= |s.arrivals| && BannerStopsAt(s, stop.value)
    ensures stop.Some? ==> forall j :: 0 <= j < stop.value ==> !BannerStopsAt(s, j)
    ensures stop.None? ==> forall j :: 0 <= j <= |s.arrivals| ==> !BannerStopsAt(s, j)
    decreases |s.arrivals| - i
  {
    if BannerStopsAt(s, i) then Some(i) else if i == |s.arrivals| then None else BannerStopFrom(s, i + 1)
  }

  function Banner(s: Script): (r: Outcome<Result<seq<byte>, Exec.Error>>) {
    match BannerStopFrom(s, 0)
    case Some(i) => Returns(Exec.Decoded(DataOf(s.arrivals[..i])))
    case None => Hangs
  }

  method CollectBanner(channel: Stream) returns (r: Outcome<Result<seq<byte>, Exec.Error>>)
    requires channel.Valid() && channel.pos == 0
    modifies channel
    ensures r == Banner(channel.script)
  {
    ghost var s := channel.script;
    ghost var a := s.arrivals;
    var got: seq<byte> := [];
    var wake := channel.Wait(None);
    ghost var i := 0;
    while wake.Got?
      invariant channel.Valid() && i <= |a| && got == DataOf(a[..i]) && |got| < BANNER_MIN
      invariant forall j :: 0 <= j < i ==> !BannerStopsAt(s, j)
      invariant wake.Got? ==> i < |a| && wake.msg == a[i].msg && channel.pos == i + 1
      invariant !wake.Got? ==> i == |a| && wake == if s.ending.Ends? then Ended else Blocked
      decreases |a| - i
    {
      DataOfStep(a, i);
      if wake.msg.Data? {
        got := got + wake.msg.data;
        if |got| >= BANNER_MIN {
          BannerAt(s, i + 1);
          return Returns(Exec.Decoded(got));
        }
      } else if wake.msg.Close? || wake.msg.Eof? {
        BannerAt(s, i);
        return Returns(Exec.Decoded(got));
      }
      i := i + 1;
      wake := channel.Wait(None);
    }
    if wake.Blocked? {
      return Hangs;
    }
    BannerAt(s, i);
    r := Returns(Exec.Decoded(got));
  }

  lemma BannerAt(s: Script, i: nat)
    requires i <= |s.arrivals| && BannerStopsAt(s, i)
    requires forall j :: 0 <= j < i ==> !BannerStopsAt(s, j)
    ensures Banner(s) == Returns(Exec.Decoded(DataOf(s.arrivals[..i])))
  {
    var stop := BannerStopFrom(s, 0);
    assert stop.Some? && stop.value == i;
  }

  // ----- agreement

  /** A server that keeps to section 5.3 of RFC 4254: no empty chunks and no bytes after Eof. */
  predicate Conforming(s: Script) {
    && (forall i :: 0 <= i < |s.arrivals| && CarriesBytes(s.arrivals[i].msg) ==> s.arrivals[i].msg.data != [])
    && (forall i, j :: 0 <= i < j < CloseIndex(s) && s.arrivals[i].msg.Eof? ==> !CarriesBytes(s.arrivals[j].msg))
  }

  lemma {:induction false} NoBytesNoText(a: seq<Arrival>)
    requires forall i :: 0 <= i < |a| ==> !CarriesBytes(a[i].msg)
    ensures TextOf(a) == [] && DataOf(a) == []
  {
    if a != [] {
      NoBytesNoText(a[..|a| - 1]);
    }
  }

  lemma AfterEmptyNothing(s: Script)
    requires Conforming(s)
    ensures var e := EmptyIndex(s);
            e <= CloseIndex(s) && forall i :: e <= i < CloseIndex(s) ==> !CarriesBytes(s.arrivals[i].msg)
  {
    EmptyComesByClose(s);
    var e := EmptyIndex(s);
    if e < |s.arrivals| {
      assert ReadsEmpty(s.arrivals[e].msg);
    }
  }

  /** The probe waits for ever exactly on a silent stream with neither Close nor Eof nor four Data bytes. */
  lemma BannerHangsExactly(s: Script)
    ensures Banner(s) == Hangs <==>
            && s.ending.Silent? && |DataOf(s.arrivals)| < 4
            && forall i :: 0 <= i < |s.arrivals| ==> !s.arrivals[i].msg.Close? && !s.arrivals[i].msg.Eof?
  {
    var a := s.arrivals;
    assert a[..|a|] == a;
    if Banner(s) == Hangs {
      forall i | 0 <= i < |a| ensures !a[i].msg.Close? && !a[i].msg.Eof? {
        assert !BannerStopsAt(s, i);
      }
      assert !BannerStopsAt(s, |a|);
    } else {
      var i := BannerStopFrom(s, 0).value;
      assert BannerStopsAt(s, i);
      DataOfSplit(a, i, |a|);
    }
  }

  /**
   Exactly what the probe returns, on any stream on which it does: it stops after the message with
   which it has four Data bytes, before the first Close or Eof, or at the end, and answers with the Data
   bytes so far.
   */
  lemma BannerExactly(s: Script) returns (i: nat)
    requires Banner(s).Returns?
    ensures var a := s.arrivals;
            && i <= |a|
            && (forall j :: 0 <= j < i ==> !a[j].msg.Close? && !a[j].msg.Eof? && |DataOf(a[..j])| < 4)
            && (|DataOf(a[..i])| < 4 ==> if i < |a| then a[i].msg.Close? || a[i].msg.Eof? else s.ending.Ends?)
            && Exec.Answers(Banner(s), DataOf(a[..i]))
  {
    i := BannerStopFrom(s, 0).value;
    forall j | 0 <= j < i ensures !s.arrivals[j].msg.Close? && !s.arrivals[j].msg.Eof? && |DataOf(s.arrivals[..j])| < 4 {
      assert !BannerStopsAt(s, j);
    }
    Exec.DecodedAnswers(DataOf(s.arrivals[..i]));
  }

  /** A prefix of i messages holds at least four Data bytes and no shorter one does, or it holds them all. */
  predicate FirstFourBytes(s: Script, i: nat) {
    && i <= CloseIndex(s)
    && DataOf(s.arrivals[..i]) <= DataOf(BeforeClose(s))
    && (|DataOf(s.arrivals[..i])| < 4 ==> DataOf(s.arrivals[..i]) == DataOf(BeforeClose(s)))
    && (forall j :: 0 <= j < i ==> |DataOf(s.arrivals[..j])| < 4)
  }

  /** The banner is all the Data before the Close, or its shortest prefix of whole chunks with four bytes. */
  lemma BannerIsShortestPrefix(s: Script) returns (i: nat)
    requires Conforming(s) && Banner(s).Returns?
    ensures FirstFourBytes(s, i) && Exec.Answers(Banner(s), DataOf(s.arrivals[..i]))
  {
    hide Banner, Exec.Answers;
    var a, c := s.arrivals, CloseIndex(s);
    CloseIndexIsClose(s);
    i := BannerExactly(s);
    assert c < |a| ==> a[c].msg.Close?;
    DataOfSplit(a, i, c);
    if |DataOf(a[..i])| < 4 && i < c {
      NothingAfterEof(s, i);
    }
  }

  lemma NothingAfterEof(s: Script, i: nat)
    requires Conforming(s) && i < CloseIndex(s) && s.arrivals[i].msg.Eof?
    ensures DataOf(s.arrivals[i..CloseIndex(s)]) == []
  {
    var rest := s.arrivals[i..CloseIndex(s)];
    forall k | 0 <= k < |rest| ensures !CarriesBytes(rest[k].msg) {
      assert rest[k] == s.arrivals[i + k];
    }
    NoBytesNoText(rest);
  }

  /**
   On a conforming stream, however it ends, readers get the bytes that pump delivers; exec, when the
   timeout hides nothing from it, returns them without the ExtendedData; and the probe returns the first four or more of those.
   */
  lemma ConsumersAgree(s: Script) returns (i: nat)
    requires Conforming(s)
    ensures ReadText(s) == EventBytes(Emitted(s))
    ensures Exec.Lossless(s) ==> Exec.Answers(Exec.Output(s), TextOf(DropExtended(BeforeClose(s))))
    ensures Exec.Lossless(s) && NoExtended(s) ==> Exec.Answers(Exec.Output(s), ReadText(s))
    ensures Banner(s).Returns? ==>
              FirstFourBytes(s, i) && Exec.Answers(Banner(s), TextOf(DropExtended(s.arrivals[..i])))
  {
    hide Exec.Answers, Banner, Emitted, EventBytes, BeforeClose;
    ReadsConform(s);
    TextWithoutExtended(BeforeClose(s));
    if Exec.Lossless(s) {
      Exec.LosslessOutput(s);
      if NoExtended(s) {
        NothingToDrop(s);
      }
    }
    i := 0;
    if Banner(s).Returns? {
      i := BannerIsShortestPrefix(s);
      TextWithoutExtended(s.arrivals[..i]);
    }
  }

  lemma ReadsConform(s: Script)
    requires Conforming(s)
    ensures ReadText(s) == EventBytes(Emitted(s)) == TextOf(BeforeClose(s))
  {
    hide Emitted, EventBytes;
    var a, e, c := s.arrivals, EmptyIndex(s), CloseIndex(s);
    AfterEmptyNothing(s);
    NoBytesNoText(a[e..c]);
    TextOfSplit(a, e, c);
    PumpDelivers(s);
  }

  lemma NothingToDrop(s: Script)
    requires NoExtended(s)
    ensures DropExtended(BeforeClose(s)) == BeforeClose(s)
  {
    DropNothing(BeforeClose(s));
  }

  predicate NoExtended(s: Script) {
    forall i :: 0 <= i < CloseIndex(s) ==> !s.arrivals[i].msg.ExtendedData?
  }

  /** An empty data message makes a reader stop before bytes that pump delivers. */
  lemma EmptyDataEndsReading()
    ensures var s := Script([Arrival(0, Data([])), Arrival(0, Data([65])), Arrival(0, Close)], Ends(0));
            ReadText(s) == [] && EventBytes(Emitted(s)) == [65]
  {
    var s := Script([Arrival(0, Data([])), Arrival(0, Data([65])), Arrival(0, Close)], Ends(0));
    var a := s.arrivals;
    assert ReadsEmpty(a[0].msg) && EmptyIndex(s) == 0;
    assert a[2].msg.Close? && CloseIndex(s) == 2;
    PumpDelivers(s);
    TextOfStep(a, 0);
    TextOfStep(a, 1);
  }

  lemma {:induction false} DropNothing(a: seq<Arrival>)
    requires forall i :: 0 <= i < |a| ==> !a[i].msg.ExtendedData?
    ensures DropExtended(a) == a
  {
    if a != [] {
      DropNothing(a[..|a| - 1]);
    }
  }
}
