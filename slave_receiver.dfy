/**
 * The multibyte slave receiver. The eUSCI_B0 module is a slave at address
 * 0x48 in receive mode with only the receive interrupt enabled, and the
 * foreground sleeps forever with sleep-on-exit set. Every received byte is
 * stored at `RXData[xferIndex++]`, and the index returns to 0 when it
 * reaches `NUM_OF_RX_BYTES`, so the buffer is circular: it always holds the
 * last four bytes the master wrote, the newest just before `xferIndex`.
 */
module SlaveReceiver {
  import opened I2cTypes

  const NumOfRxBytes: nat := 4

  /** One wake-up of the handler: whether the receive flag is latched, and
      the byte in the receive register. */
  datatype Event = Event(rxLatched: bool, data: uint8)

  /** The program's statics. */
  datatype Slave = Slave(rxData: seq<uint8>, xferIndex: nat)

  /** The buffer has its four entries and the next store is in bounds. */
  predicate Valid(s: Slave) {
    |s.rxData| == NumOfRxBytes && s.xferIndex < NumOfRxBytes
  }

  /** `main` sets `xferIndex` to 0; `RXData` is a zero-initialised static. */
  function Initial(): (s: Slave)
    ensures Valid(s)
  {
    Slave(seq(NumOfRxBytes, _ => 0), 0)
  }

  /** `EUSCIB0_IRQHandler`: a latched receive stores one byte at the index,
      which then advances and wraps from 3 to 0; anything else leaves the
      statics as they are. */
  function Interrupt(s: Slave, e: Event): (r: Slave)
    requires Valid(s)
    ensures Valid(r)
    ensures !e.rxLatched ==> r == s
    ensures e.rxLatched ==>
              && r.rxData[s.xferIndex] == e.data
              && (forall p :: 0 <= p < NumOfRxBytes && p != s.xferIndex ==> r.rxData[p] == s.rxData[p])
              && r.xferIndex == (s.xferIndex + 1) % NumOfRxBytes
  {
    if e.rxLatched then
      var index := s.xferIndex + 1;
      Slave(s.rxData[s.xferIndex := e.data], if index == NumOfRxBytes then 0 else index)
    else
      s
  }

  /** The handler run once per event, in order. */
  function Receive(s: Slave, events: seq<Event>): (r: Slave)
    requires Valid(s)
    ensures Valid(r)
    decreases |events|
  {
    if events == [] then s
    else Interrupt(Receive(s, events[..|events| - 1]), events[|events| - 1])
  }

  /** The bytes the master wrote, in order. */
  function Received(events: seq<Event>): seq<uint8>
    decreases |events|
  {
    if events == [] then []
    else
      var last := events[|events| - 1];
      Received(events[..|events| - 1]) + (if last.rxLatched then [last.data] else [])
  }

  /** The entry that the byte at arrival position `j` goes to, when the
      first byte went to entry `x`. */
  function Slot(x: nat, j: nat): nat {
    (x + j) % NumOfRxBytes
  }

  /** The statics `r` after `events` from `s`: the index has advanced by the
      number of bytes received, modulo 4; each of the last four bytes
      received sits at its arrival position modulo 4 counted from the
      starting index; and the entries no byte has reached yet keep their old
      values. */
  ghost predicate Window(s: Slave, events: seq<Event>, r: Slave)
    requires Valid(s) && Valid(r)
  {
    var bs := Received(events);
    && r.xferIndex == Slot(s.xferIndex, |bs|)
    && (forall j :: 0 <= j < |bs| && |bs| - NumOfRxBytes <= j ==>
          r.rxData[Slot(s.xferIndex, j)] == bs[j])
    && (forall j :: |bs| <= j < NumOfRxBytes ==>
          r.rxData[Slot(s.xferIndex, j)] == s.rxData[Slot(s.xferIndex, j)])
  }

  /** One more received byte keeps the window. */
  lemma {:induction false} WindowOnReceive(s: Slave, events: seq<Event>)
    requires Valid(s) && events != [] && events[|events| - 1].rxLatched
    requires Window(s, events[..|events| - 1], Receive(s, events[..|events| - 1]))
    ensures Window(s, events, Receive(s, events))
  {
    var front := events[..|events| - 1];
    var last := events[|events| - 1];
    var q := Receive(s, front);
    var n := |Received(front)|;
    var bs := Received(events);
    assert bs == Received(front) + [last.data];
    var r := Interrupt(q, last);
    assert Slot(s.xferIndex, n + 1) == (q.xferIndex + 1) % NumOfRxBytes;
    forall j | 0 <= j < |bs| && |bs| - NumOfRxBytes <= j
      ensures r.rxData[Slot(s.xferIndex, j)] == bs[j]
    {
      if j < n {
        SlotsDiffer(s.xferIndex, j, n);
      }
    }
    forall j | |bs| <= j < NumOfRxBytes
      ensures r.rxData[Slot(s.xferIndex, j)] == s.rxData[Slot(s.xferIndex, j)]
    {
      SlotsDiffer(s.xferIndex, n, j);
    }
  }

  /** After any sequence of events the statics are as `Window` describes. */
  lemma {:induction false} ReceiveWindow(s: Slave, events: seq<Event>)
    requires Valid(s)
    ensures Window(s, events, Receive(s, events))
    decreases |events|
  {
    if events != [] {
      var front := events[..|events| - 1];
      ReceiveWindow(s, front);
      if events[|events| - 1].rxLatched {
        WindowOnReceive(s, events);
      } else {
        assert Received(events) == Received(front);
      }
    } else {
      assert Slot(s.xferIndex, 0) == s.xferIndex;
    }
  }

  /** Two arrival positions less than four apart go to different entries. */
  lemma SlotsDiffer(x: nat, i: nat, j: nat)
    requires i < j < i + NumOfRxBytes
    ensures Slot(x, i) != Slot(x, j)
  {
  }

  /** From reset, entry `p` holds the latest byte whose arrival position is
      `p` modulo 4, and entries not reached yet are still 0. */
  lemma {:induction false} WindowFromReset(events: seq<Event>)
    ensures var r := Receive(Initial(), events);
      var bs := Received(events);
      && r.xferIndex == |bs| % NumOfRxBytes
      && (forall j :: 0 <= j < |bs| && |bs| - NumOfRxBytes <= j ==> r.rxData[Slot(0, j)] == bs[j])
      && (forall p :: |bs| <= p < NumOfRxBytes ==> r.rxData[p] == 0)
  {
    ReceiveWindow(Initial(), events);
    var bs := Received(events);
    forall p | |bs| <= p < NumOfRxBytes
      ensures Receive(Initial(), events).rxData[p] == 0
    {
      assert Slot(0, p) == p;
      assert Initial().rxData[p] == 0;
    }
  }

  /** Four more received bytes bring the index back where it was and
      overwrite the whole buffer, oldest first. */
  lemma {:induction false} FourBytesFillBuffer(s: Slave, events: seq<Event>)
    requires Valid(s) && |Received(events)| == NumOfRxBytes
    ensures var r := Receive(s, events);
      && r.xferIndex == s.xferIndex
      && (forall j :: 0 <= j < NumOfRxBytes ==> r.rxData[Slot(s.xferIndex, j)] == Received(events)[j])
  {
    ReceiveWindow(s, events);
  }

  // ---------------------------------------------------------------------------
  // The program's statics and the handler

  /** `RXData` and `xferIndex`, updated in place by the handler. */
  class Receiver {
    const RXData: array<uint8>
    var xferIndex: nat

    function State(): Slave
      reads this, RXData
    {
      Slave(RXData[..], xferIndex)
    }

    /** `main`'s initialisation. */
    constructor ()
      ensures fresh(RXData)
      ensures State() == Initial()
    {
      RXData := new uint8[NumOfRxBytes](_ => 0);
      xferIndex := 0;
    }

    /** `EUSCIB0_IRQHandler`. */
    method OnInterrupt(e: Event)
      requires Valid(State())
      modifies this, RXData
      ensures State() == Interrupt(old(State()), e)
    {
      if e.rxLatched {
        RXData[xferIndex] := e.data;
        xferIndex := xferIndex + 1;
        if xferIndex == NumOfRxBytes {
          xferIndex := 0;
        }
      }
    }

    /** The foreground's `while (1)` sleep: every event wakes the handler
        once and the foreground goes straight back to sleep. */
    method Serve(events: seq<Event>)
      requires Valid(State())
      modifies this, RXData
      ensures State() == Receive(old(State()), events)
    {
      var used := 0;
      while used < |events|
        invariant used <= |events|
        invariant Valid(State())
        invariant State() == Receive(old(State()), events[..used])
      {
        assert events[..used + 1][..used] == events[..used];
        OnInterrupt(events[used]);
        used := used + 1;
      }
      assert events[..used] == events;
    }
  }
}
