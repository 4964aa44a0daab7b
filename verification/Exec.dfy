/** The output loop of SshSpikeSession::exec (ssh-transport/src/lib.rs). */
module Exec {
  import opened Wrappers
  import opened Bytes
  import opened Utf8
  import opened MessageStream

  const QUIET_MS: nat := 300

  datatype Error = NotUtf8

  /** String::from_utf8 of the collected bytes. */
  function Decoded(got: seq<byte>): (r: Result<seq<byte>, Error>) {
    if ValidUtf8(got) then Ok(got) else Err(NotUtf8)
  }

  /** The collection stops here: at Close, at the end, or on a quiet wait once the status was seen. */
  predicate StopsAt(s: Script, i: nat)
    requires i <= |s.arrivals|
  {
    || (i < |s.arrivals| && s.arrivals[i].msg.Close?)
    || (i == |s.arrivals| && s.ending.Ends?)
    || (HasStatus(s.arrivals[..i]) && Exceeds(s, i, QUIET_MS))
  }

  predicate IsFirstStop(s: Script, i: nat) {
    i <= |s.arrivals| && StopsAt(s, i) && forall j :: 0 <= j < i ==> !StopsAt(s, j)
  }

  predicate NeverStops(s: Script) {
    forall j :: 0 <= j <= |s.arrivals| ==> !StopsAt(s, j)
  }

  function StopFrom(s: Script, i: nat): (stop: Option<nat>)
    requires i <= |s.arrivals|
    requires forall j :: 0 <= j < i ==> !StopsAt(s, j)
    ensures stop.Some? ==> IsFirstStop(s, stop.value)
    ensures stop.None? ==> NeverStops(s)
    decreases |s.arrivals| - i
  {
    if StopsAt(s, i) then Some(i) else if i == |s.arrivals| then None else StopFrom(s, i + 1)
  }

  /** The Data bytes before the first stop; nothing if the loop waits for ever. */
  function Collected(s: Script): (got: Option<seq<byte>>) {
    match StopFrom(s, 0)
    case Some(i) => Some(DataOf(s.arrivals[..i]))
    case None => None
  }

  /** What exec returns: the collected bytes, if they are UTF-8. */
  function Output(s: Script): (r: Outcome<Result<seq<byte>, Error>>) {
    match Collected(s)
    case Some(got) => Returns(Decoded(got))
    case None => Hangs
  }

  lemma OutputAt(s: Script, i: nat)
    requires IsFirstStop(s, i)
    ensures Output(s) == Returns(Decoded(DataOf(s.arrivals[..i])))
  {
    var stop := StopFrom(s, 0);
    assert stop.Some? && stop.value == i;
  }

  /** The loop: unbounded waits until the status is seen, 300 ms waits afterwards. */
  method CollectOutput(channel: Stream) returns (r: Outcome<Result<seq<byte>, Error>>)
    requires channel.Valid() && channel.pos == 0
    modifies channel
    ensures r == Output(channel.script)
  {
    var a := channel.script.arrivals;
    var got: seq<byte> := [];
    var statusSeen := false;
    ghost var s := channel.script;
    while true
      invariant channel.Valid()
      invariant got == DataOf(a[..channel.pos])
      invariant statusSeen <==> HasStatus(a[..channel.pos])
      invariant forall j :: 0 <= j < channel.pos ==> !StopsAt(s, j)
      decreases |a| - channel.pos
    {
      ghost var i := channel.pos;
      var wake := channel.Wait(if statusSeen then Some(QUIET_MS) else None);
      match wake {
        case TimedOut =>
          OutputAt(s, i);
          break;
        case Ended =>
          OutputAt(s, i);
          break;
        case Blocked =>
          assert NeverStops(s);
          return Hangs;
        case Got(m) =>
          DataOfStep(a, i);
          StatusStep(a, i);
          if m.Data? {
            got := got + m.data;
          } else if m.ExitStatus? {
            statusSeen := true;
          } else if m.Close? {
            OutputAt(s, i);
            break;
          }
      }
    }
    r := Returns(Decoded(got));
  }

  lemma StatusStep(a: seq<Arrival>, i: nat)
    requires i < |a|
    ensures HasStatus(a[..i + 1]) <==> HasStatus(a[..i]) || a[i].msg.ExitStatus?
  {
    if HasStatus(a[..i]) {
      var k :| 0 <= k < i && a[..i][k].msg.ExitStatus?;
      assert a[..i + 1][k].msg.ExitStatus?;
    }
    if a[i].msg.ExitStatus? {
      assert a[..i + 1][i].msg.ExitStatus?;
    }
    if HasStatus(a[..i + 1]) && !a[i].msg.ExitStatus? {
      var k :| 0 <= k < i + 1 && a[..i + 1][k].msg.ExitStatus?;
      assert a[..i][k].msg.ExitStatus?;
    }
  }

  /** What a caller is told about some bytes: the text they spell, or that they spell none. */
  ghost predicate Answers(r: Outcome<Result<seq<byte>, Error>>, bytes: seq<byte>) {
    && (IsText(bytes) ==> r == Returns(Ok(bytes)))
    && (!IsText(bytes) ==> r == Returns(Err(NotUtf8)))
  }

  lemma DecodedAnswers(bytes: seq<byte>)
    ensures Answers(Returns(Decoded(bytes)), bytes)
  {
    ValidExactly(bytes);
  }

  /**
   Exactly what exec returns, on any stream on which it does: it stops at the first message i that is
   a Close, or that is more than 300 ms late after the status, or at the end of the stream, and answers
   with the Data bytes before.
   */
  lemma OutputExactly(s: Script) returns (i: nat)
    requires Output(s).Returns?
    ensures var a := s.arrivals;
            && i <= |a|
            && (forall j :: 0 <= j < i ==> !a[j].msg.Close? && !(HasStatus(a[..j]) && a[j].gap > 300))
            && (i < |a| ==> a[i].msg.Close? || (HasStatus(a[..i]) && a[i].gap > 300))
            && (i == |a| ==> s.ending.Ends? || HasStatus(a))
            && Answers(Output(s), DataOf(a[..i]))
  {
    i := StopFrom(s, 0).value;
    assert StopsAt(s, i) && s.arrivals[..|s.arrivals|] == s.arrivals;
    forall j | 0 <= j < i
      ensures !s.arrivals[j].msg.Close? && !(HasStatus(s.arrivals[..j]) && s.arrivals[j].gap > 300)
    {
      assert !StopsAt(s, j);
    }
    DecodedAnswers(DataOf(s.arrivals[..i]));
  }

  /** exec waits for ever exactly on a silent stream that never showed a status or a Close. */
  lemma HangsExactly(s: Script)
    ensures Output(s) == Hangs <==> s.ending.Silent? && !HasClose(s) && !HasStatus(s.arrivals)
  {
    var a := s.arrivals;
    assert a[..|a|] == a;
    if Output(s) == Hangs {
      assert NeverStops(s);
      assert !StopsAt(s, |a|);
      forall k | 0 <= k < |a| ensures !a[k].msg.Close? {
        assert !StopsAt(s, k);
      }
    } else {
      var i := StopFrom(s, 0).value;
      assert StopsAt(s, i);
      if HasStatus(a[..i]) {
        var k :| 0 <= k < i && a[..i][k].msg.ExitStatus?;
        assert a[k].msg.ExitStatus?;
      }
    }
  }

  /** A wait of over 300 ms at i, after the status; later, still before the Close, Data bytes at j. */
  predicate LosesAt(s: Script, i: nat, j: nat)
    requires i <= j < |s.arrivals|
  {
    j < CloseIndex(s) && HasStatus(s.arrivals[..i]) && Exceeds(s, i, QUIET_MS) && HasBytes(s, j)
  }

  predicate LosesData(s: Script) {
    exists i, j :: 0 <= i <= j < |s.arrivals| && LosesAt(s, i, j)
  }

  predicate HasBytes(s: Script, j: nat)
    requires j < |s.arrivals|
  {
    s.arrivals[j].msg.Data? && s.arrivals[j].msg.data != []
  }

  lemma {:induction false} NoDataExactly(s: Script, i: nat, c: nat)
    requires i <= c <= |s.arrivals|
    ensures DataOf(s.arrivals[i..c]) == [] <==> forall j :: i <= j < c ==> !HasBytes(s, j)
  {
    if i < c {
      NoDataExactly(s, i, c - 1);
      assert s.arrivals[i..c][..c - 1 - i] == s.arrivals[i..c - 1];
      assert DataOf(s.arrivals[i..c]) == [] <==> DataOf(s.arrivals[i..c - 1]) == [] && !HasBytes(s, c - 1);
    } else {
      assert s.arrivals[i..c] == [];
    }
  }

  /** Whenever exec returns, it has every Data byte before the Close exactly when the timeout hides none. */
  lemma LosesNothingExactly(s: Script)
    requires Output(s).Returns?
    ensures Collected(s) == Some(DataOf(BeforeClose(s))) <==> !LosesData(s)
  {
    var a, c := s.arrivals, CloseIndex(s);
    assert c < |a| ==> StopsAt(s, c);
    var i := StopFrom(s, 0).value;
    DataOfSplit(a, i, c);
    NoDataExactly(s, i, c);
    if i < c {
      assert HasStatus(a[..i]) && Exceeds(s, i, QUIET_MS);
    }
    if LosesData(s) {
      var k, j :| 0 <= k <= j < |a| && LosesAt(s, k, j);
      assert StopsAt(s, k);
      assert i <= j < c && DataOf(a[i..c]) != [];
      assert |DataOf(a[..c])| > |DataOf(a[..i])|;
    } else {
      forall j | i <= j < c ensures !HasBytes(s, j) {
        assert !LosesAt(s, i, j);
      }
      assert DataOf(a[..i]) + [] == DataOf(a[..i]);
    }
  }

  /** One millisecond earlier it is not lost: a wait of exactly 300 ms still ends with the message. */
  lemma DataAtTheLimit()
    ensures var s := Script([Arrival(0, ExitStatus(0)), Arrival(300, Data([65])), Arrival(0, Close)], Ends(0));
            Output(s) == Returns(Ok([65]))
  {
    var s := Script([Arrival(0, ExitStatus(0)), Arrival(300, Data([65])), Arrival(0, Close)], Ends(0));
    var a := s.arrivals;
    assert a[2].msg.Close? && IsFirstStop(s, 2);
    OutputAt(s, 2);
    DataOfStep(a, 0);
    DataOfStep(a, 1);
    SevenBitIsUtf8([65]);
    assert DataOf(a[..0]) == [] && DataOf(a[..2]) == [65];
  }

  /** exec returns, and the timeout hides nothing from it. */
  predicate Lossless(s: Script) {
    Output(s).Returns? && !LosesData(s)
  }

  /**
   On a lossless stream exec returns every Data byte before the Close, or before the end or the
   silence, when they are a text, and otherwise the error that they are not.
   */
  lemma LosslessOutput(s: Script)
    requires Lossless(s)
    ensures Answers(Output(s), DataOf(BeforeClose(s)))
    ensures Output(s) == Returns(Decoded(DataOf(BeforeClose(s))))
  {
    LosesNothingExactly(s);
    DecodedAnswers(DataOf(BeforeClose(s)));
  }

  /** No wait after the status, up to the Close (or the end of the stream), exceeds 300 ms. */
  predicate Calm(s: Script) {
    forall i :: 0 <= i <= CloseIndex(s) && HasStatus(s.arrivals[..i]) ==> !Exceeds(s, i, QUIET_MS)
  }

  predicate Finishes(s: Script) {
    HasClose(s) || s.ending.Ends?
  }

  /** A stream that finishes and never makes the timer fire is lossless. */
  lemma CalmIsLossless(s: Script)
    requires Finishes(s) && Calm(s)
    ensures Lossless(s)
  {
    HangsExactly(s);
  }

  /** So is the stream the timer is for: no Close ever, and silence after the last Data. */
  lemma SilenceIsLossless(a: seq<Arrival>)
    requires HasStatus(a) && !HasClose(Script(a, Silent))
    requires forall i :: 0 <= i < |a| && HasStatus(a[..i]) ==> !Exceeds(Script(a, Silent), i, QUIET_MS)
    ensures Lossless(Script(a, Silent)) && !Calm(Script(a, Silent))
    ensures Answers(Output(Script(a, Silent)), DataOf(a))
  {
    hide Answers, Output, DataOf;
    var s := Script(a, Silent);
    CloseIndexIsClose(s);
    HangsExactly(s);
    assert a[..|a|] == a && Exceeds(s, |a|, QUIET_MS);
    LosslessOutput(s);
  }

  /** A stream that loses its output: the status, then 301 ms of silence, then the Data and the Close. */
  lemma LateDataIsLost()
    ensures var s := Script([Arrival(0, ExitStatus(0)), Arrival(301, Data([65])), Arrival(0, Close)], Ends(0));
            Finishes(s) && LosesData(s) && Output(s) == Returns(Ok([])) && DataOf(BeforeClose(s)) == [65]
  {
    var s := Script([Arrival(0, ExitStatus(0)), Arrival(301, Data([65])), Arrival(0, Close)], Ends(0));
    var a := s.arrivals;
    assert a[2].msg.Close? && CloseIndex(s) == 2;
    assert a[..1][0].msg.ExitStatus? && a[1].gap == 301 && HasBytes(s, 1);
    assert LosesAt(s, 1, 1);
    assert !HasStatus(a[..0]) && IsFirstStop(s, 1);
    OutputAt(s, 1);
    DataOfStep(a, 0);
    DataOfStep(a, 1);
    assert DataOf(a[..0]) == [] && ValidUtf8([]);
  }

  /**
   Lossless streams with the same Data bytes give the same result, wherever the status lands and
   however the bytes are cut into chunks.
   */
  lemma OnlyDataMatters(s: Script, t: Script)
    requires Lossless(s) && Lossless(t)
    requires DataOf(BeforeClose(s)) == DataOf(BeforeClose(t))
    ensures Output(s) == Output(t)
  {
    LosslessOutput(s);
    LosslessOutput(t);
  }

  // ----- where the status lands

  /** The stream with the status before y, and the one with the status after it. */
  function Early(x: seq<Arrival>, status: Arrival, y: seq<Arrival>, rest: seq<Arrival>, ending: Ending): (s: Script) {
    Script(x + [status] + y + rest, ending)
  }

  function Late(x: seq<Arrival>, status: Arrival, y: seq<Arrival>, rest: seq<Arrival>, ending: Ending): (s: Script) {
    Script(x + y + [status] + rest, ending)
  }

  /**
   Moving the exit status, across any messages y: later on a stream that loses nothing, or earlier if
   besides none of the messages it passes waits over 300 ms. Both streams are lossless and give the
   same result.
   */
  lemma StatusMayMove(x: seq<Arrival>, status: Arrival, y: seq<Arrival>, rest: seq<Arrival>, ending: Ending)
    requires status.msg.ExitStatus?
    requires || (!LosesData(Early(x, status, y, rest, ending)) && (status.gap <= QUIET_MS || !HasStatus(y)))
             || (!LosesData(Late(x, status, y, rest, ending)) && status.gap <= QUIET_MS && Prompt(y))
    ensures Lossless(Early(x, status, y, rest, ending)) && Lossless(Late(x, status, y, rest, ending))
    ensures Output(Early(x, status, y, rest, ending)) == Output(Late(x, status, y, rest, ending))
  {
    var early, late := Early(x, status, y, rest, ending), Late(x, status, y, rest, ending);
    if !LosesData(early) && (status.gap <= QUIET_MS || !HasStatus(y)) {
      LateLosesNothing(x, status, y, rest, ending);
    } else {
      EarlyLosesNothing(x, status, y, rest, ending);
    }
    assert early.arrivals[|x|].msg.ExitStatus? && late.arrivals[|x| + |y|].msg.ExitStatus?;
    HangsExactly(early);
    HangsExactly(late);
    StatusCarriesNoData(x, status, y, rest, ending);
    OnlyDataMatters(early, late);
  }

  /** Where a message of the late stream stands in the early one. */
  function EarlyIndex(n: nat, m: nat, p: nat): (q: nat)
    requires n <= m
  {
    if n <= p < m then p + 1 else if p == m then n else p
  }

  lemma MovedAt(x: seq<Arrival>, status: Arrival, y: seq<Arrival>, rest: seq<Arrival>, ending: Ending, p: nat)
    requires p < |x| + 1 + |y| + |rest|
    ensures var e, l := Early(x, status, y, rest, ending).arrivals, Late(x, status, y, rest, ending).arrivals;
            var q := EarlyIndex(|x|, |x| + |y|, p);
            && |e| == |l| == |x| + 1 + |y| + |rest| && q < |e| && l[p] == e[q]
            && e[|x|] == status == l[|x| + |y|]
            && (|x| <= p < |x| + |y| ==> l[p] == y[p - |x|])
  {
  }

  /** A message other than the status stands before the Close in both streams or in neither. */
  lemma MovedBeforeClose(x: seq<Arrival>, status: Arrival, y: seq<Arrival>, rest: seq<Arrival>, ending: Ending, p: nat)
    requires status.msg.ExitStatus? && p < |x| + 1 + |y| + |rest| && p != |x| + |y|
    ensures p < CloseIndex(Late(x, status, y, rest, ending)) <==>
            EarlyIndex(|x|, |x| + |y|, p) < CloseIndex(Early(x, status, y, rest, ending))
  {
    var early, late := Early(x, status, y, rest, ending), Late(x, status, y, rest, ending);
    var n, m, c := |x|, |x| + |y|, CloseIndex(late);
    forall k: nat | k < |late.arrivals| ensures late.arrivals[k] == early.arrivals[EarlyIndex(n, m, k)] {
      MovedAt(x, status, y, rest, ending, k);
    }
    MovedAt(x, status, y, rest, ending, p);
    var q := EarlyIndex(n, m, p);
    if q < CloseIndex(early) {
      forall k: nat | k <= p ensures !late.arrivals[k].msg.Close? {
        MovedAt(x, status, y, rest, ending, k);
        assert k == m || EarlyIndex(n, m, k) <= q;
      }
    }
    if p < c {
      forall k: nat | k <= q ensures !early.arrivals[k].msg.Close? {
        var back := if k == n then m else if n < k <= m then k - 1 else k;
        MovedAt(x, status, y, rest, ending, back);
        assert k == n || back <= p;
      }
    }
  }

  lemma StatusBefore(a: seq<Arrival>, i: nat, k: nat)
    requires k < i <= |a| && a[k].msg.ExitStatus?
    ensures HasStatus(a[..i])
  {
    assert a[..i][k].msg.ExitStatus?;
  }

  lemma LateLosesNothing(x: seq<Arrival>, status: Arrival, y: seq<Arrival>, rest: seq<Arrival>, ending: Ending)
    requires status.msg.ExitStatus? && (status.gap <= QUIET_MS || !HasStatus(y))
    requires !LosesData(Early(x, status, y, rest, ending))
    ensures !LosesData(Late(x, status, y, rest, ending))
  {
    hide CloseIndex;
    var early, late := Early(x, status, y, rest, ending), Late(x, status, y, rest, ending);
    var e, l, n, m := early.arrivals, late.arrivals, |x|, |x| + |y|;
    forall i, j | 0 <= i <= j < |l| && j < CloseIndex(late) && HasStatus(l[..i]) && HasBytes(late, j)
      ensures !Exceeds(late, i, QUIET_MS)
    {
      MovedAt(x, status, y, rest, ending, i);
      MovedAt(x, status, y, rest, ending, j);
      assert j != m;
      MovedBeforeClose(x, status, y, rest, ending, j);
      var i', j' := EarlyIndex(n, m, i), EarlyIndex(n, m, j);
      var k :| 0 <= k < i && l[..i][k].msg.ExitStatus?;
      MovedAt(x, status, y, rest, ending, k);
      if i == m && k >= n {
        assert y[k - n].msg.ExitStatus?;
      } else {
        StatusBefore(e, i', if i < n || i == m then k else n);
        assert !LosesAt(early, i', j');
      }
    }
  }

  lemma EarlyLosesNothing(x: seq<Arrival>, status: Arrival, y: seq<Arrival>, rest: seq<Arrival>, ending: Ending)
    requires status.msg.ExitStatus? && status.gap <= QUIET_MS && Prompt(y)
    requires !LosesData(Late(x, status, y, rest, ending))
    ensures !LosesData(Early(x, status, y, rest, ending))
  {
    hide CloseIndex;
    var early, late := Early(x, status, y, rest, ending), Late(x, status, y, rest, ending);
    var e, l, n, m := early.arrivals, late.arrivals, |x|, |x| + |y|;
    forall i, j | 0 <= i <= j < |e| && j < CloseIndex(early) && HasStatus(e[..i]) && HasBytes(early, j)
      ensures !Exceeds(early, i, QUIET_MS)
    {
      if i < n || i > m {
        var j' := if n < j <= m then j - 1 else j;
        MovedAt(x, status, y, rest, ending, i);
        assert j != n;
        MovedAt(x, status, y, rest, ending, j');
        MovedBeforeClose(x, status, y, rest, ending, j');
        var k :| 0 <= k < i && e[..i][k].msg.ExitStatus?;
        MovedAt(x, status, y, rest, ending, m);
        if i < n {
          MovedAt(x, status, y, rest, ending, k);
        }
        StatusBefore(l, i, if i < n then k else m);
        assert !LosesAt(late, i, j');
      } else if i > n {
        MovedAt(x, status, y, rest, ending, i - 1);
      } else {
        MovedAt(x, status, y, rest, ending, m);
      }
    }
  }

  /** The Data before the Close, read in two parts. */
  lemma DataInParts(x: seq<Arrival>, z: seq<Arrival>, ending: Ending)
    ensures DataOf(BeforeClose(Script(x + z, ending)))
            == if HasClose(Script(x, ending)) then DataOf(BeforeClose(Script(x, ending)))
               else DataOf(x) + DataOf(BeforeClose(Script(z, ending)))
  {
    CloseSplit(x, z, ending);
    DataOfAppend(x, BeforeClose(Script(z, ending)));
  }

  lemma StatusAlone(status: Arrival, rest: seq<Arrival>, ending: Ending)
    requires status.msg.ExitStatus?
    ensures DataOf(BeforeClose(Script([status] + rest, ending))) == DataOf(BeforeClose(Script(rest, ending)))
    ensures HasClose(Script([status] + rest, ending)) <==> HasClose(Script(rest, ending))
  {
    var tail := BeforeClose(Script(rest, ending));
    CloseSplit([status], rest, ending);
    assert !HasClose(Script([status], ending));
    DataOfAppend([status], tail);
    assert DataOf([status]) == DataOf([status][..0]);
  }

  lemma StatusCarriesNoData(x: seq<Arrival>, status: Arrival, y: seq<Arrival>, rest: seq<Arrival>, ending: Ending)
    requires status.msg.ExitStatus?
    ensures DataOf(BeforeClose(Early(x, status, y, rest, ending))) == DataOf(BeforeClose(Late(x, status, y, rest, ending)))
  {
    hide HasClose, BeforeClose, DataOf;
    assert x + [status] + y + rest == x + ([status] + (y + rest));
    assert x + y + [status] + rest == x + (y + ([status] + rest));
    DataInParts(x, [status] + (y + rest), ending);
    DataInParts(x, y + ([status] + rest), ending);
    StatusAlone(status, y + rest, ending);
    DataInParts(y, rest, ending);
    DataInParts(y, [status] + rest, ending);
    StatusAlone(status, rest, ending);
  }

  // ----- how the bytes are cut

  /** Every wait is at most 300 ms. */
  predicate Prompt(a: seq<Arrival>) {
    forall i :: 0 <= i < |a| ==> a[i].gap <= QUIET_MS
  }

  predicate OnlyData(a: seq<Arrival>) {
    forall i :: 0 <= i < |a| ==> a[i].msg.Data?
  }

  lemma NoCloseInData(a: seq<Arrival>, ending: Ending)
    requires OnlyData(a)
    ensures !HasClose(Script(a, ending))
  {
  }

  /** With the Data messages a in its middle the stream closes where x or z does. */
  lemma CloseAround(x: seq<Arrival>, a: seq<Arrival>, z: seq<Arrival>, ending: Ending)
    requires OnlyData(a)
    ensures var s, front, back := Script(x + a + z, ending), Script(x, ending), Script(z, ending);
            && (HasClose(s) <==> HasClose(front) || HasClose(back))
            && BeforeClose(s) == (if HasClose(front) then BeforeClose(front) else x + a + BeforeClose(back))
            && CloseIndex(s) == (if HasClose(front) then CloseIndex(front) else |x| + |a| + CloseIndex(back))
  {
    hide HasClose, CloseIndex;
    assert x + a + z == x + (a + z);
    CloseSplit(x, a + z, ending);
    CloseSplit(a, z, ending);
    NoCloseInData(a, ending);
    assert |BeforeClose(Script(x + a + z, ending))| == CloseIndex(Script(x + a + z, ending));
    var back := BeforeClose(Script(z, ending));
    assert x + (a + back) == x + a + back;
  }

  lemma StatusAround(x: seq<Arrival>, a: seq<Arrival>, z: seq<Arrival>, i: nat)
    requires OnlyData(a) && i <= |x + a + z|
    ensures HasStatus((x + a + z)[..i]) <==>
            HasStatus(if i <= |x| then x[..i] else x) || (i > |x| + |a| && HasStatus(z[..i - |x| - |a|]))
  {
    var all := x + a + z;
    if HasStatus(all[..i]) {
      var k :| 0 <= k < i && all[..i][k].msg.ExitStatus?;
      if k < |x| {
        assert (if i <= |x| then x[..i] else x)[k] == all[k];
      } else {
        assert k >= |x| + |a|;
        assert z[..i - |x| - |a|][k - |x| - |a|] == all[k];
      }
    }
    var front := if i <= |x| then x[..i] else x;
    if HasStatus(front) {
      var k :| 0 <= k < |front| && front[k].msg.ExitStatus?;
      assert all[..i][k] == front[k];
    }
    if i > |x| + |a| && HasStatus(z[..i - |x| - |a|]) {
      var k :| 0 <= k < i - |x| - |a| && z[..i - |x| - |a|][k].msg.ExitStatus?;
      assert all[..i][|x| + |a| + k] == z[k];
    }
  }

  /** A message of x or z, in the stream with b in its middle and in the one with a. */
  lemma RechunkedAt(x: seq<Arrival>, a: seq<Arrival>, b: seq<Arrival>, z: seq<Arrival>, i: nat)
    requires OnlyData(a) && OnlyData(b) && i < |x + b + z| && !(|x| <= i < |x| + |b|)
    ensures var k := if i < |x| then i else i - |b| + |a|;
            && 0 <= k < |x + a + z| && (x + a + z)[k] == (x + b + z)[i]
            && (HasStatus((x + a + z)[..k]) <==> HasStatus((x + b + z)[..i]))
  {
    var k := if i < |x| then i else i - |b| + |a|;
    StatusAround(x, b, z, i);
    StatusAround(x, a, z, k);
    assert x[..|x|] == x;
  }

  /** A piece with bytes on one side means one on the other. */
  lemma BytesInPieces(a: seq<Arrival>, b: seq<Arrival>, ending: Ending, i: nat) returns (p: nat)
    requires DataOf(a) == DataOf(b) && i < |b| && HasBytes(Script(b, ending), i)
    ensures p < |a| && HasBytes(Script(a, ending), p)
  {
    NoDataExactly(Script(a, ending), 0, |a|);
    NoDataExactly(Script(b, ending), 0, |b|);
    assert a[0..|a|] == a && b[0..|b|] == b;
    p :| 0 <= p < |a| && HasBytes(Script(a, ending), p);
  }

  /** The same bytes are still to come in the stream with a. */
  lemma BytesStillThere(x: seq<Arrival>, a: seq<Arrival>, b: seq<Arrival>, z: seq<Arrival>, ending: Ending, j: nat)
    returns (k: nat)
    requires OnlyData(a) && OnlyData(b) && DataOf(a) == DataOf(b)
    requires j < CloseIndex(Script(x + b + z, ending)) && HasBytes(Script(x + b + z, ending), j)
    ensures k < CloseIndex(Script(x + a + z, ending)) && HasBytes(Script(x + a + z, ending), k)
    ensures if j < |x| then k == j else if j < |x| + |b| then |x| <= k < |x| + |a| else k == j - |b| + |a|
  {
    hide DataOf, CloseIndex, HasClose, BeforeClose, HasStatus;
    var s, t := Script(x + a + z, ending), Script(x + b + z, ending);
    CloseAround(x, a, z, ending);
    CloseAround(x, b, z, ending);
    if |x| <= j < |x| + |b| {
      assert t.arrivals[j] == b[j - |x|];
      var p := BytesInPieces(a, b, ending, j - |x|);
      k := |x| + p;
      assert s.arrivals[k] == a[p];
    } else {
      RechunkedAt(x, a, b, z, j);
      k := if j < |x| then j else j - |b| + |a|;
    }
  }

  lemma RechunkedLosesNothing(x: seq<Arrival>, a: seq<Arrival>, b: seq<Arrival>, z: seq<Arrival>, ending: Ending)
    requires OnlyData(a) && OnlyData(b) && DataOf(a) == DataOf(b) && (HasStatus(x) ==> Prompt(b))
    requires !LosesData(Script(x + a + z, ending))
    ensures !LosesData(Script(x + b + z, ending))
  {
    var s, t := Script(x + a + z, ending), Script(x + b + z, ending);
    forall i, j | 0 <= i <= j < |t.arrivals| && j < CloseIndex(t) && HasStatus(t.arrivals[..i]) && HasBytes(t, j)
      ensures !Exceeds(t, i, QUIET_MS)
    {
      if |x| <= i < |x| + |b| {
        StatusAround(x, b, z, i);
        assert x[..|x|] == x && t.arrivals[i] == b[i - |x|];
      } else {
        var k := BytesStillThere(x, a, b, z, ending, j);
        RechunkedAt(x, a, b, z, i);
        assert !LosesAt(s, if i < |x| then i else i - |b| + |a|, k);
      }
    }
  }

  /**
   Cutting Data bytes into other pieces, anywhere in a lossless stream, changes nothing. The new pieces
   may take any time before the status, and up to 300 ms each after it.
   */
  lemma ChunkingIsInvisible(x: seq<Arrival>, a: seq<Arrival>, b: seq<Arrival>, z: seq<Arrival>, ending: Ending)
    requires OnlyData(a) && OnlyData(b) && DataOf(a) == DataOf(b)
    requires HasStatus(x) ==> Prompt(b)
    requires Lossless(Script(x + a + z, ending))
    ensures Lossless(Script(x + b + z, ending))
    ensures Output(Script(x + a + z, ending)) == Output(Script(x + b + z, ending))
  {
    var s, t := Script(x + a + z, ending), Script(x + b + z, ending);
    RechunkedLosesNothing(x, a, b, z, ending);
    RechunkedReturns(x, a, b, z, ending);
    CloseAround(x, a, z, ending);
    CloseAround(x, b, z, ending);
    var back := BeforeClose(Script(z, ending));
    DataOfAppend(x + a, back);
    DataOfAppend(x, a);
    DataOfAppend(x + b, back);
    DataOfAppend(x, b);
    OnlyDataMatters(s, t);
  }

  lemma RechunkedReturns(x: seq<Arrival>, a: seq<Arrival>, b: seq<Arrival>, z: seq<Arrival>, ending: Ending)
    requires OnlyData(a) && OnlyData(b) && Output(Script(x + a + z, ending)).Returns?
    ensures Output(Script(x + b + z, ending)).Returns?
  {
    HangsExactly(Script(x + a + z, ending));
    HangsExactly(Script(x + b + z, ending));
    CloseAround(x, a, z, ending);
    CloseAround(x, b, z, ending);
    StatusAround(x, a, z, |x + a + z|);
    StatusAround(x, b, z, |x + b + z|);
    assert (x + a + z)[..|x + a + z|] == x + a + z && (x + b + z)[..|x + b + z|] == x + b + z;
    assert x[..|x|] == x && z[..|z|] == z;
  }
}
