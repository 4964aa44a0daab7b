/**
 The messages of one SSH channel as its readers see them: what arrives, how long each
 wait lasts in milliseconds, and how the stream ends. Everything a server may do is a Script.
 */
module MessageStream {
  import opened Wrappers
  import opened Bytes

  datatype Msg =
    | Data(data: seq<byte>)
    | ExtendedData(kind: nat, data: seq<byte>)
    | ExitStatus(code: nat)
    | Eof
    | Close
    | Other

  /** `gap` is how long a reader that starts waiting for this message waits. */
  datatype Arrival = Arrival(gap: nat, msg: Msg)

  /** After the last message the stream ends, or the server says nothing for ever. */
  datatype Ending = Ends(gap: nat) | Silent

  datatype Script = Script(arrivals: seq<Arrival>, ending: Ending)

  datatype Wake = Got(msg: Msg) | Ended | TimedOut | Blocked

  /** A call either returns or waits for ever. */
  datatype Outcome<+T> = Returns(value: T) | Hangs

  /** Whether waiting at position i takes longer than `limit`. */
  predicate Exceeds(s: Script, i: nat, limit: nat)
    requires i <= |s.arrivals|
  {
    if i < |s.arrivals| then s.arrivals[i].gap > limit
    else match s.ending
      case Ends(gap) => gap > limit
      case Silent => true
  }

  /** The receiving end of a channel: the messages still to come start at `pos`. */
  class Stream {
    const script: Script
    var pos: nat

    ghost predicate Valid()
      reads this
    {
      pos <= |script.arrivals|
    }

    constructor (script: Script)
      ensures Valid() && this.script == script && pos == 0
    {
      this.script := script;
      pos := 0;
    }

    /** channel.wait(), or tokio's timeout around it when a limit is given. */
    method Wait(limit: Option<nat>) returns (wake: Wake)
      requires Valid()
      modifies this`pos
      ensures Valid()
      ensures limit.Some? && Exceeds(script, old(pos), limit.value) ==> wake == TimedOut && pos == old(pos)
      ensures !(limit.Some? && Exceeds(script, old(pos), limit.value)) ==>
                if old(pos) < |script.arrivals| then
                  wake == Got(script.arrivals[old(pos)].msg) && pos == old(pos) + 1
                else
                  pos == old(pos) && wake == if script.ending.Ends? then Ended else Blocked
    {
      if limit.Some? && Exceeds(script, pos, limit.value) {
        return TimedOut;
      }
      if pos < |script.arrivals| {
        wake := Got(script.arrivals[pos].msg);
        pos := pos + 1;
      } else {
        wake := if script.ending.Ends? then Ended else Blocked;
      }
    }
  }

  // ----- bytes carried by messages

  predicate CarriesBytes(m: Msg) {
    m.Data? || m.ExtendedData?
  }

  /** The Data bytes, in order; ExtendedData is skipped. */
  function DataOf(a: seq<Arrival>): (bytes: seq<byte>) {
    if a == [] then []
    else DataOf(a[..|a| - 1]) + (if a[|a| - 1].msg.Data? then a[|a| - 1].msg.data else [])
  }

  /** The Data and ExtendedData bytes, in order. */
  function TextOf(a: seq<Arrival>): (bytes: seq<byte>) {
    if a == [] then []
    else TextOf(a[..|a| - 1]) + (if CarriesBytes(a[|a| - 1].msg) then a[|a| - 1].msg.data else [])
  }

  function DropExtended(a: seq<Arrival>): (r: seq<Arrival>) {
    if a == [] then []
    else DropExtended(a[..|a| - 1]) + (if a[|a| - 1].msg.ExtendedData? then [] else [a[|a| - 1]])
  }

  lemma {:induction false} DataOfAppend(a: seq<Arrival>, b: seq<Arrival>)
    ensures DataOf(a + b) == DataOf(a) + DataOf(b)
  {
    if b == [] {
      assert a + b == a;
    } else {
      assert (a + b)[..|a + b| - 1] == a + b[..|b| - 1];
      DataOfAppend(a, b[..|b| - 1]);
    }
  }

  lemma {:induction false} TextOfAppend(a: seq<Arrival>, b: seq<Arrival>)
    ensures TextOf(a + b) == TextOf(a) + TextOf(b)
  {
    if b == [] {
      assert a + b == a;
    } else {
      assert (a + b)[..|a + b| - 1] == a + b[..|b| - 1];
      TextOfAppend(a, b[..|b| - 1]);
    }
  }

  /** What one message contributes: its bytes if it is Data, and to the text also if it is ExtendedData. */
  lemma BytesOfOne(gap: nat, kind: nat, data: seq<byte>)
    ensures DataOf([Arrival(gap, Data(data))]) == data == TextOf([Arrival(gap, Data(data))])
    ensures DataOf([Arrival(gap, ExtendedData(kind, data))]) == []
    ensures TextOf([Arrival(gap, ExtendedData(kind, data))]) == data
  {
    var one, two := [Arrival(gap, Data(data))], [Arrival(gap, ExtendedData(kind, data))];
    assert one[..0] == [] && two[..0] == [];
    assert [] + data == data;
  }

  /** No other message contributes anything. */
  lemma NoBytesOfOne(m: Arrival)
    requires !m.msg.Data? && !m.msg.ExtendedData?
    ensures DataOf([m]) == [] == TextOf([m])
  {
    assert [m][..0] == [];
  }

  lemma {:induction false} TextWithoutExtended(a: seq<Arrival>)
    ensures TextOf(DropExtended(a)) == DataOf(a)
  {
    if a != [] {
      var front, last := a[..|a| - 1], a[|a| - 1];
      TextWithoutExtended(front);
      if last.msg.ExtendedData? {
        assert DropExtended(a) == DropExtended(front);
      } else {
        assert DropExtended(a) == DropExtended(front) + [last];
        TextOfAppend(DropExtended(front), [last]);
        assert TextOf([last]) == TextOf([]) + (if CarriesBytes(last.msg) then last.msg.data else []);
      }
    }
  }

  lemma DataOfStep(a: seq<Arrival>, i: nat)
    requires i < |a|
    ensures DataOf(a[..i + 1]) == DataOf(a[..i]) + (if a[i].msg.Data? then a[i].msg.data else [])
  {
    assert a[..i + 1][..i] == a[..i];
  }

  lemma TextOfStep(a: seq<Arrival>, i: nat)
    requires i < |a|
    ensures TextOf(a[..i + 1]) == TextOf(a[..i]) + (if CarriesBytes(a[i].msg) then a[i].msg.data else [])
  {
    assert a[..i + 1][..i] == a[..i];
  }

  lemma DataOfSplit(a: seq<Arrival>, i: nat, j: nat)
    requires i <= j <= |a|
    ensures DataOf(a[..j]) == DataOf(a[..i]) + DataOf(a[i..j])
  {
    assert a[..j] == a[..i] + a[i..j];
    DataOfAppend(a[..i], a[i..j]);
  }

  lemma TextOfSplit(a: seq<Arrival>, i: nat, j: nat)
    requires i <= j <= |a|
    ensures TextOf(a[..j]) == TextOf(a[..i]) + TextOf(a[i..j])
  {
    assert a[..j] == a[..i] + a[i..j];
    TextOfAppend(a[..i], a[i..j]);
  }

  predicate HasStatus(a: seq<Arrival>) {
    exists i :: 0 <= i < |a| && a[i].msg.ExitStatus?
  }

  predicate HasClose(s: Script) {
    exists i :: 0 <= i < |s.arrivals| && s.arrivals[i].msg.Close?
  }

  /** Index of the first Close at or after i, or the number of messages. */
  function CloseFrom(s: Script, i: nat): (c: nat)
    requires i <= |s.arrivals|
    ensures i <= c <= |s.arrivals|
    ensures forall j :: i <= j < c ==> !s.arrivals[j].msg.Close?
    ensures c < |s.arrivals| ==> s.arrivals[c].msg.Close?
    decreases |s.arrivals| - i
  {
    if i == |s.arrivals| || s.arrivals[i].msg.Close? then i else CloseFrom(s, i + 1)
  }

  function CloseIndex(s: Script): (c: nat)
    ensures c <= |s.arrivals|
  {
    CloseFrom(s, 0)
  }

  /** The messages before the first Close. */
  function BeforeClose(s: Script): (a: seq<Arrival>) {
    s.arrivals[..CloseIndex(s)]
  }

  lemma CloseIndexIsClose(s: Script)
    ensures HasClose(s) <==> CloseIndex(s) < |s.arrivals|
  {
  }

  /** Reading on past a prefix: the first Close is in x, or else the first one of z. */
  lemma CloseSplit(x: seq<Arrival>, z: seq<Arrival>, ending: Ending)
    ensures var s, front, back := Script(x + z, ending), Script(x, ending), Script(z, ending);
            && (HasClose(s) <==> HasClose(front) || HasClose(back))
            && BeforeClose(s) == if HasClose(front) then BeforeClose(front) else x + BeforeClose(back)
  {
    var s, front, back := Script(x + z, ending), Script(x, ending), Script(z, ending);
    CloseIndexIsClose(s);
    CloseIndexIsClose(front);
    CloseIndexIsClose(back);
    var c := if HasClose(front) then CloseIndex(front) else |x| + CloseIndex(back);
    assert c < |s.arrivals| ==> s.arrivals[c].msg.Close?;
    forall i | 0 <= i < c ensures !s.arrivals[i].msg.Close? {
      assert s.arrivals[i] == if i < |x| then x[i] else z[i - |x|];
      if i < |x| {
        assert !front.arrivals[i].msg.Close?;
      } else {
        assert !back.arrivals[i - |x|].msg.Close?;
      }
    }
    assert CloseIndex(s) == c;
  }
}
