/**
 * The repeated-start master reader. Each iteration of the foreground loop
 * writes one byte (`TXData[0]`, 0x04) to slave 0x48 with a START, resets
 * `xferIndex` and switches to a receive with a repeated START, then sleeps.
 * The eUSCI_B0 interrupt handler stores each received byte at
 * `RXData[xferIndex++]`; on the byte that arrives when `xferIndex` is
 * `NUM_OF_REC_BYTES - 2` it first swaps the receive interrupt for the stop
 * interrupt and requests STOP, then reads the byte. The stop interrupt turns
 * itself off and lets the foreground wake up.
 *
 * The handler sees only the latched flags whose interrupts are enabled
 * (`I2C_getEnabledInterruptStatus`), so the enable mask is part of the state.
 * The sleep-on-exit bit decides when the foreground resumes: it sleeps again
 * after every handler run until the stop branch clears the bit.
 */
module RepeatedStartMaster {
  import opened I2cTypes

  const NumOfRecBytes: nat := 10

  /** The constant transmit buffer. */
  const TXData: seq<uint8> := [0x04]

  /** A request made to the eUSCI_B0 module. */
  datatype Action =
    | StartWrite(data: uint8)  // START and first byte of a write
    | StartRead                // repeated START, receive mode
    | RequestStop              // STOP requested while a byte is still to come
    | ReadNext                 // one byte taken from the receive register

  /** One wake-up of the handler: the latched receive and stop flags (enabled
      or not) and the byte waiting in the receive register. */
  datatype Event = Event(rxLatched: bool, stopLatched: bool, rxByte: uint8)

  /** The program's statics and the module's interrupt-enable and
      sleep-on-exit bits. */
  datatype Reader = Reader(rxData: seq<uint8>, xferIndex: nat,
                           receiveEnabled: bool, stopEnabled: bool, sleepOnExit: bool)

  datatype Step = Step(next: Reader, actions: seq<Action>)

  /** What the foreground's sleep produced: the final state, the requests
      made, and how many events the handler consumed. */
  datatype Run = Run(next: Reader, actions: seq<Action>, used: nat)

  /** One iteration of the foreground loop; `completed` is false when the
      events ran out while the foreground was still asleep. */
  datatype Iteration = Iteration(next: Reader, actions: seq<Action>, used: nat, completed: bool)

  /** Several iterations of the foreground loop; `transfers` counts the completed ones. */
  datatype Session = Session(next: Reader, actions: seq<Action>, used: nat, transfers: nat)

  /** The buffer has its 10 entries and every store the handler can make is
      in bounds: while receive interrupts are on, the index is at most 8. */
  predicate Valid(r: Reader) {
    && |r.rxData| == NumOfRecBytes
    && r.xferIndex < NumOfRecBytes
    && (r.receiveEnabled ==> r.xferIndex <= NumOfRecBytes - 2)
  }

  /** `main` before the loop: `RXData` zero-filled, `xferIndex` zero as a C
      static, no interrupt source of the module enabled. */
  function Initial(): Reader {
    Reader(seq(NumOfRecBytes, _ => 0), 0, false, false, false)
  }

  /** The foreground's start of a transfer, after the bus is idle again. */
  function Begin(r: Reader): Step {
    Step(r.(xferIndex := 0, receiveEnabled := true, sleepOnExit := true), [StartWrite(TXData[0]), StartRead])
  }

  /** `EUSCIB0_IRQHandler`: one run of the handler. */
  function Interrupt(r: Reader, e: Event): (s: Step)
    requires Valid(r)
    ensures Valid(s.next)
    ensures var rx := e.rxLatched && r.receiveEnabled;
      && (rx ==> s.next.rxData == r.rxData[r.xferIndex := e.rxByte] && s.next.xferIndex == r.xferIndex + 1)
      && (!rx ==> s.next.rxData == r.rxData && s.next.xferIndex == r.xferIndex)
      && (RequestStop in s.actions <==> rx && r.xferIndex == NumOfRecBytes - 2)
      && (rx ==> s.next.sleepOnExit == r.sleepOnExit)
      && (s.next.sleepOnExit != r.sleepOnExit <==> r.sleepOnExit && !rx && e.stopLatched && r.stopEnabled)
    ensures RequestStop in s.actions ==>
              s.actions == [RequestStop, ReadNext] && !s.next.receiveEnabled && s.next.stopEnabled
    ensures !(RequestStop in s.actions) ==>
              s.actions == (if e.rxLatched && r.receiveEnabled then [ReadNext] else [])
    ensures var stop := !(e.rxLatched && r.receiveEnabled) && e.stopLatched && r.stopEnabled;
      && s.next.receiveEnabled == (r.receiveEnabled && !(RequestStop in s.actions))
      && s.next.stopEnabled == ((r.stopEnabled && !stop) || RequestStop in s.actions)
    ensures s.next.rxData[NumOfRecBytes - 1] == r.rxData[NumOfRecBytes - 1]
  {
    if e.rxLatched && r.receiveEnabled then
      var stored := r.rxData[r.xferIndex := e.rxByte];
      if r.xferIndex == NumOfRecBytes - 2 then
        Step(r.(rxData := stored, xferIndex := r.xferIndex + 1, receiveEnabled := false, stopEnabled := true),
             [RequestStop, ReadNext])
      else
        Step(r.(rxData := stored, xferIndex := r.xferIndex + 1), [ReadNext])
    else if e.stopLatched && r.stopEnabled then
      Step(r.(sleepOnExit := false, stopEnabled := false), [])
    else
      Step(r, [])
  }

  /** The foreground's low-power sleep: every event runs the handler, and the
      foreground resumes after the first run that clears sleep-on-exit. */
  function Sleep(r: Reader, events: seq<Event>): (w: Run)
    requires Valid(r)
    ensures Valid(w.next) && w.used <= |events|
    decreases |events|
  {
    if !r.sleepOnExit || events == [] then
      Run(r, [], 0)
    else
      var s := Interrupt(r, events[0]);
      var w := Sleep(s.next, events[1..]);
      Run(w.next, s.actions + w.actions, w.used + 1)
  }

  /** One iteration of the foreground `while (1)` loop. */
  function LoopBody(r: Reader, events: seq<Event>): (it: Iteration)
    requires Valid(r)
    ensures Valid(it.next) && it.used <= |events|
  {
    var s := Begin(r);
    var w := Sleep(s.next, events);
    Iteration(w.next, s.actions + w.actions, w.used, !w.next.sleepOnExit)
  }

  /** `n` iterations of the foreground loop, stopping early at one that does
      not complete. */
  function MainLoop(r: Reader, events: seq<Event>, n: nat): (s: Session)
    requires Valid(r)
    ensures Valid(s.next) && s.used <= |events|
    decreases n
  {
    if n == 0 then
      Session(r, [], 0, 0)
    else
      var it := LoopBody(r, events);
      if !it.completed then
        Session(it.next, it.actions, it.used, 0)
      else
        var rest := MainLoop(it.next, events[it.used..], n - 1);
        Session(rest.next, it.actions + rest.actions, it.used + rest.used, rest.transfers + 1)
  }

  // ---------------------------------------------------------------------------
  // Reference definitions

  /** The bytes of the events that latch a receive, in order. */
  function Received(events: seq<Event>): seq<uint8> {
    if events == [] then []
    else (if events[0].rxLatched then [events[0].rxByte] else []) + Received(events[1..])
  }

  /** `n` reads of the receive register. */
  function Reads(n: nat): seq<Action> {
    seq(n, _ => ReadNext)
  }

  lemma ReadsCons(n: nat)
    ensures Reads(n + 1) == [ReadNext] + Reads(n)
  {
    assert Reads(n + 1)[1..] == Reads(n);
  }

  /** The requests of one complete transfer: write 0x04, switch to receive,
      read 8 bytes, request STOP, read the ninth. */
  function OneTransfer(): seq<Action> {
    [StartWrite(0x04), StartRead] + Reads(NumOfRecBytes - 2) + [RequestStop, ReadNext]
  }

  /** `n` complete transfers back to back. */
  function Transfers(n: nat): seq<Action> {
    if n == 0 then [] else OneTransfer() + Transfers(n - 1)
  }

  function Min(a: nat, b: nat): nat {
    if a <= b then a else b
  }

  lemma {:induction false} ReceivedPrefix(events: seq<Event>, j: nat)
    requires 0 < j <= |events|
    ensures Received(events[..j]) ==
              (if events[0].rxLatched then [events[0].rxByte] else []) + Received(events[1..][..j - 1])
  {
    assert events[..j][1..] == events[1..][..j - 1];
  }

  // ---------------------------------------------------------------------------
  // The stop phase: receive off, stop on

  /** A handler state after STOP was requested. */
  predicate Stopping(r: Reader) {
    Valid(r) && !r.receiveEnabled && r.stopEnabled && r.sleepOnExit
  }

  /** Once STOP is requested, the foreground wakes at the first event that
      latches the stop flag, whatever else is latched with it; nothing is
      stored and no request is made meanwhile, and the wake-up turns the stop
      interrupt off. */
  lemma {:induction false} StopPhase(r: Reader, events: seq<Event>)
    requires Stopping(r)
    ensures var w := Sleep(r, events);
      && (!w.next.sleepOnExit <==> exists j :: 0 <= j < |events| && events[j].stopLatched)
      && w.actions == []
      && w.next.rxData == r.rxData && w.next.xferIndex == r.xferIndex && !w.next.receiveEnabled
      && (!w.next.sleepOnExit ==> !w.next.stopEnabled)
      && (w.next.sleepOnExit ==> w.next == r && w.used == |events|)
      && (!w.next.sleepOnExit ==>
            && 0 < w.used && events[w.used - 1].stopLatched
            && forall j :: 0 <= j < w.used - 1 ==> !events[j].stopLatched)
    decreases |events|
  {
    if events != [] {
      if !events[0].stopLatched {
        StopPhase(r, events[1..]);
        var w := Sleep(r, events[1..]);
        if !w.next.sleepOnExit {
          var j :| 0 <= j < |events[1..]| && events[1..][j].stopLatched;
          assert events[j + 1].stopLatched;
          assert events[w.used] == events[1..][w.used - 1];
          forall j | 0 <= j < w.used ensures !events[j].stopLatched {
            if j > 0 {
              assert events[j] == events[1..][j - 1];
            }
          }
        } else {
          forall j | 0 <= j < |events| ensures !events[j].stopLatched {
            if j > 0 {
              assert events[j] == events[1..][j - 1];
            }
          }
        }
      }
    }
  }

  // ---------------------------------------------------------------------------
  // The receive phase: receive on, stop off

  /** A handler state while bytes are being received. */
  predicate Receiving(r: Reader) {
    Valid(r) && r.receiveEnabled && !r.stopEnabled && r.sleepOnExit
  }

  /** Bytes still to store from state `r` before the handler requests STOP
      and switches to the stop interrupt. */
  function Pending(r: Reader): nat
    requires Valid(r)
  {
    NumOfRecBytes - 1 - r.xferIndex
  }

  /** There is an event latching STOP after `k` receive events. */
  ghost predicate StopAfter(events: seq<Event>, k: nat) {
    exists j :: 0 <= j < |events| && events[j].stopLatched && |Received(events[..j])| >= k
  }

  lemma {:induction false} CompletesOnLast(r: Reader, events: seq<Event>)
    requires Receiving(r) && events != [] && events[0].rxLatched && r.xferIndex == NumOfRecBytes - 2
    ensures !Sleep(r, events).next.sleepOnExit <==> StopAfter(events, Pending(r))
  {
    var s := Interrupt(r, events[0]);
    var rest := events[1..];
    SleepStep(r, events);
    StopPhase(s.next, rest);
    if StopAfter(events, Pending(r)) {
      var j :| 0 <= j < |events| && events[j].stopLatched && |Received(events[..j])| >= Pending(r);
      assert j > 0;
      assert rest[j - 1] == events[j];
    }
    if exists j :: 0 <= j < |rest| && rest[j].stopLatched {
      var j :| 0 <= j < |rest| && rest[j].stopLatched;
      ReceivedPrefix(events, j + 1);
      assert events[j + 1] == rest[j];
    }
  }

  lemma {:induction false} CompletesOnStore(r: Reader, events: seq<Event>)
    requires Receiving(r) && events != [] && events[0].rxLatched && r.xferIndex < NumOfRecBytes - 2
    requires var s := Interrupt(r, events[0]);
      !Sleep(s.next, events[1..]).next.sleepOnExit <==> StopAfter(events[1..], Pending(s.next))
    ensures !Sleep(r, events).next.sleepOnExit <==> StopAfter(events, Pending(r))
  {
    var s := Interrupt(r, events[0]);
    var rest := events[1..];
    SleepStep(r, events);
    if StopAfter(events, Pending(r)) {
      var j :| 0 <= j < |events| && events[j].stopLatched && |Received(events[..j])| >= Pending(r);
      assert j > 0;
      ReceivedPrefix(events, j);
      assert rest[j - 1] == events[j];
      assert StopAfter(rest, Pending(s.next));
    }
    if StopAfter(rest, Pending(s.next)) {
      var j :| 0 <= j < |rest| && rest[j].stopLatched && |Received(rest[..j])| >= Pending(s.next);
      ReceivedPrefix(events, j + 1);
      assert events[j + 1] == rest[j];
    }
  }

  lemma {:induction false} CompletesOnIdle(r: Reader, events: seq<Event>)
    requires Receiving(r) && events != [] && !events[0].rxLatched
    requires !Sleep(r, events[1..]).next.sleepOnExit <==> StopAfter(events[1..], Pending(r))
    ensures !Sleep(r, events).next.sleepOnExit <==> StopAfter(events, Pending(r))
  {
    var rest := events[1..];
    SleepStep(r, events);
    if StopAfter(events, Pending(r)) {
      var j :| 0 <= j < |events| && events[j].stopLatched && |Received(events[..j])| >= Pending(r);
      assert j > 0;
      ReceivedPrefix(events, j);
      assert rest[j - 1] == events[j];
      assert StopAfter(rest, Pending(r));
    }
    if StopAfter(rest, Pending(r)) {
      var j :| 0 <= j < |rest| && rest[j].stopLatched && |Received(rest[..j])| >= Pending(r);
      ReceivedPrefix(events, j + 1);
      assert events[j + 1] == rest[j];
    }
  }

  /** While receiving, the foreground wakes exactly when an event latches the
      stop flag after all pending bytes arrived. */
  lemma {:induction false} ReceivePhaseCompletes(r: Reader, events: seq<Event>)
    requires Receiving(r)
    ensures !Sleep(r, events).next.sleepOnExit <==> StopAfter(events, Pending(r))
    decreases |events|
  {
    if events == [] {
    } else if !events[0].rxLatched {
      ReceivePhaseCompletes(r, events[1..]);
      CompletesOnIdle(r, events);
    } else if r.xferIndex == NumOfRecBytes - 2 {
      CompletesOnLast(r, events);
    } else {
      ReceivePhaseCompletes(Interrupt(r, events[0]).next, events[1..]);
      CompletesOnStore(r, events);
    }
  }

  /** The sleep ended with event `used - 1`: it latches STOP after at least
      `k` receive events, and every earlier event that latches STOP comes
      after fewer than `k` of them. */
  ghost predicate WakesAtFirstStop(events: seq<Event>, k: nat, used: nat) {
    && 0 < used <= |events|
    && events[used - 1].stopLatched
    && |Received(events[..used - 1])| >= k
    && (forall j :: 0 <= j < used - 1 && events[j].stopLatched ==> |Received(events[..j])| < k)
  }

  lemma {:induction false} WakesOnLast(r: Reader, events: seq<Event>)
    requires Receiving(r) && events != [] && events[0].rxLatched && r.xferIndex == NumOfRecBytes - 2
    ensures var w := Sleep(r, events);
      !w.next.sleepOnExit ==> WakesAtFirstStop(events, Pending(r), w.used)
  {
    var s := Interrupt(r, events[0]);
    var rest := events[1..];
    SleepStep(r, events);
    StopPhase(s.next, rest);
    var w := Sleep(r, events);
    if !w.next.sleepOnExit {
      var u := w.used;
      assert events[u - 1] == rest[u - 2];
      ReceivedPrefix(events, u - 1);
      forall j | 0 < j < u - 1
        ensures !events[j].stopLatched
      {
        assert events[j] == rest[j - 1];
      }
      assert events[..0] == [];
    }
  }

  lemma {:induction false} WakesOnStore(r: Reader, events: seq<Event>)
    requires Receiving(r) && events != [] && events[0].rxLatched && r.xferIndex < NumOfRecBytes - 2
    requires var s := Interrupt(r, events[0]);
      var w := Sleep(s.next, events[1..]);
      !w.next.sleepOnExit ==> WakesAtFirstStop(events[1..], Pending(s.next), w.used)
    ensures var w := Sleep(r, events);
      !w.next.sleepOnExit ==> WakesAtFirstStop(events, Pending(r), w.used)
  {
    var s := Interrupt(r, events[0]);
    var rest := events[1..];
    SleepStep(r, events);
    var w := Sleep(r, events);
    if !w.next.sleepOnExit {
      var u := w.used;
      assert events[u - 1] == rest[u - 2];
      ReceivedPrefix(events, u - 1);
      forall j | 0 <= j < u - 1 && events[j].stopLatched
        ensures |Received(events[..j])| < Pending(r)
      {
        if j > 0 {
          assert events[j] == rest[j - 1];
          ReceivedPrefix(events, j);
        } else {
          assert events[..j] == [];
        }
      }
    }
  }

  lemma {:induction false} WakesOnIdle(r: Reader, events: seq<Event>)
    requires Receiving(r) && events != [] && !events[0].rxLatched
    requires var w := Sleep(r, events[1..]);
      !w.next.sleepOnExit ==> WakesAtFirstStop(events[1..], Pending(r), w.used)
    ensures var w := Sleep(r, events);
      !w.next.sleepOnExit ==> WakesAtFirstStop(events, Pending(r), w.used)
  {
    var rest := events[1..];
    SleepStep(r, events);
    var w := Sleep(r, events);
    if !w.next.sleepOnExit {
      var u := w.used;
      assert events[u - 1] == rest[u - 2];
      ReceivedPrefix(events, u - 1);
      forall j | 0 <= j < u - 1 && events[j].stopLatched
        ensures |Received(events[..j])| < Pending(r)
      {
        if j > 0 {
          assert events[j] == rest[j - 1];
          ReceivedPrefix(events, j);
        } else {
          assert events[..j] == [];
        }
      }
    }
  }

  /** While receiving, the foreground wakes at the first event that latches
      the stop flag after all pending bytes arrived, and consumes no event
      after it. */
  lemma {:induction false} ReceivePhaseWakes(r: Reader, events: seq<Event>)
    requires Receiving(r)
    ensures var w := Sleep(r, events);
      !w.next.sleepOnExit ==> WakesAtFirstStop(events, Pending(r), w.used)
    decreases |events|
  {
    if events == [] {
    } else if !events[0].rxLatched {
      ReceivePhaseWakes(r, events[1..]);
      WakesOnIdle(r, events);
    } else if r.xferIndex == NumOfRecBytes - 2 {
      WakesOnLast(r, events);
    } else {
      ReceivePhaseWakes(Interrupt(r, events[0]).next, events[1..]);
      WakesOnStore(r, events);
    }
  }

  /** The buffer after a sleep that started receiving in state `r`: the
      received bytes in arrival order from `xferIndex` on, up to index 8, and
      every other entry as it was. */
  ghost predicate StoredAsReceived(r: Reader, events: seq<Event>, after: Reader)
    requires Receiving(r) && Valid(after)
  {
    && after.xferIndex == r.xferIndex + Min(Pending(r), |Received(events)|)
    && (forall p :: 0 <= p < NumOfRecBytes ==>
          after.rxData[p] == if r.xferIndex <= p < after.xferIndex then Received(events)[p - r.xferIndex] else r.rxData[p])
  }

  lemma {:induction false} StoresOnLast(r: Reader, events: seq<Event>)
    requires Receiving(r) && events != [] && events[0].rxLatched && r.xferIndex == NumOfRecBytes - 2
    ensures StoredAsReceived(r, events, Sleep(r, events).next)
  {
    var s := Interrupt(r, events[0]);
    SleepStep(r, events);
    StopPhase(s.next, events[1..]);
    assert Received(events)[0] == events[0].rxByte;
  }

  lemma {:induction false} StoresOnStore(r: Reader, events: seq<Event>)
    requires Receiving(r) && events != [] && events[0].rxLatched && r.xferIndex < NumOfRecBytes - 2
    requires var s := Interrupt(r, events[0]);
      StoredAsReceived(s.next, events[1..], Sleep(s.next, events[1..]).next)
    ensures StoredAsReceived(r, events, Sleep(r, events).next)
  {
    var s := Interrupt(r, events[0]);
    SleepStep(r, events);
    var bs := Received(events);
    assert bs == [events[0].rxByte] + Received(events[1..]);
    var after := Sleep(r, events).next;
    forall p | 0 <= p < NumOfRecBytes
      ensures after.rxData[p] == if r.xferIndex <= p < after.xferIndex then bs[p - r.xferIndex] else r.rxData[p]
    {
      if p == r.xferIndex {
        assert bs[0] == events[0].rxByte;
      } else if r.xferIndex < p < after.xferIndex {
        assert bs[p - r.xferIndex] == Received(events[1..])[p - s.next.xferIndex];
      }
    }
  }

  lemma {:induction false} StoresOnIdle(r: Reader, events: seq<Event>)
    requires Receiving(r) && events != [] && !events[0].rxLatched
    requires StoredAsReceived(r, events[1..], Sleep(r, events[1..]).next)
    ensures StoredAsReceived(r, events, Sleep(r, events).next)
  {
    SleepStep(r, events);
    assert Received(events) == Received(events[1..]);
  }

  /** While receiving, the handler stores the received bytes in arrival order
      from `xferIndex` on, up to index 8, and changes no other entry. */
  lemma {:induction false} ReceivePhaseStores(r: Reader, events: seq<Event>)
    requires Receiving(r)
    ensures StoredAsReceived(r, events, Sleep(r, events).next)
    decreases |events|
  {
    if events == [] {
    } else if !events[0].rxLatched {
      ReceivePhaseStores(r, events[1..]);
      StoresOnIdle(r, events);
    } else if r.xferIndex == NumOfRecBytes - 2 {
      StoresOnLast(r, events);
    } else {
      ReceivePhaseStores(Interrupt(r, events[0]).next, events[1..]);
      StoresOnStore(r, events);
    }
  }

  /** The requests of a sleep that started receiving in state `r`: one read
      per stored byte, with STOP requested right before the read of the byte
      stored at index 8. */
  ghost predicate ReadsAsReceived(r: Reader, events: seq<Event>, acts: seq<Action>)
    requires Receiving(r)
  {
    acts ==
      if |Received(events)| < Pending(r) then Reads(|Received(events)|)
      else Reads(Pending(r) - 1) + [RequestStop, ReadNext]
  }

  lemma {:induction false} RequestsOnLast(r: Reader, events: seq<Event>)
    requires Receiving(r) && events != [] && events[0].rxLatched && r.xferIndex == NumOfRecBytes - 2
    ensures ReadsAsReceived(r, events, Sleep(r, events).actions)
  {
    var s := Interrupt(r, events[0]);
    SleepStep(r, events);
    StopPhase(s.next, events[1..]);
  }

  lemma {:induction false} RequestsOnStore(r: Reader, events: seq<Event>)
    requires Receiving(r) && events != [] && events[0].rxLatched && r.xferIndex < NumOfRecBytes - 2
    requires var s := Interrupt(r, events[0]);
      ReadsAsReceived(s.next, events[1..], Sleep(s.next, events[1..]).actions)
    ensures ReadsAsReceived(r, events, Sleep(r, events).actions)
  {
    var s := Interrupt(r, events[0]);
    var rest := events[1..];
    var w := Sleep(s.next, rest);
    var k := |Received(rest)|;
    var q := Pending(s.next);
    assert Sleep(r, events).actions == [ReadNext] + w.actions by {
      SleepStep(r, events);
    }
    assert |Received(events)| == k + 1 && Pending(r) == q + 1 by {
      assert Received(events) == [events[0].rxByte] + Received(rest);
    }
    if k < q {
      ReadsCons(k);
    } else {
      var t := [RequestStop, ReadNext];
      ReadsCons(q - 1);
      assert [ReadNext] + (Reads(q - 1) + t) == ([ReadNext] + Reads(q - 1)) + t;
    }
  }

  lemma {:induction false} RequestsOnIdle(r: Reader, events: seq<Event>)
    requires Receiving(r) && events != [] && !events[0].rxLatched
    requires ReadsAsReceived(r, events[1..], Sleep(r, events[1..]).actions)
    ensures ReadsAsReceived(r, events, Sleep(r, events).actions)
  {
    SleepStep(r, events);
    assert Received(events) == Received(events[1..]);
  }

  /** While receiving, the requests are one read per stored byte, and STOP is
      requested right before the read of the byte stored at index 8. */
  lemma {:induction false} ReceivePhaseRequests(r: Reader, events: seq<Event>)
    requires Receiving(r)
    ensures ReadsAsReceived(r, events, Sleep(r, events).actions)
    decreases |events|
  {
    if events == [] {
    } else if !events[0].rxLatched {
      ReceivePhaseRequests(r, events[1..]);
      RequestsOnIdle(r, events);
    } else if r.xferIndex == NumOfRecBytes - 2 {
      RequestsOnLast(r, events);
    } else {
      ReceivePhaseRequests(Interrupt(r, events[0]).next, events[1..]);
      RequestsOnStore(r, events);
    }
  }

  // ---------------------------------------------------------------------------
  // Properties of whole transfers

  /** One foreground iteration started after the previous transfer's stop
      interrupt wakes the foreground exactly when an event latches STOP after
      nine bytes arrived; it then ends with no interrupt source of the module
      enabled, and otherwise it consumed every event. */
  lemma {:induction false} TransferCompletion(r: Reader, events: seq<Event>)
    requires Valid(r) && !r.stopEnabled
    ensures var it := LoopBody(r, events);
      && (it.completed <==> StopAfter(events, NumOfRecBytes - 1))
      && (it.completed ==> !it.next.receiveEnabled && !it.next.stopEnabled)
      && (it.completed ==> WakesAtFirstStop(events, NumOfRecBytes - 1, it.used))
      && (!it.completed ==> it.used == |events|)
  {
    var s := Begin(r);
    assert Pending(s.next) == NumOfRecBytes - 1;
    ReceivePhaseCompletes(s.next, events);
    ReceivePhaseEnds(s.next, events);
    ReceivePhaseWakes(s.next, events);
  }

  /** A completed iteration makes exactly the requests of `OneTransfer`: one
      byte, 0x04, written before the read starts, eight reads, then STOP
      requested before the ninth read. */
  lemma {:induction false} TransferRequests(r: Reader, events: seq<Event>)
    requires Valid(r) && !r.stopEnabled
    ensures var it := LoopBody(r, events);
      it.completed ==> it.actions == OneTransfer()
  {
    var s := Begin(r);
    var w := Sleep(s.next, events);
    assert Pending(s.next) == NumOfRecBytes - 1;
    if !w.next.sleepOnExit {
      WokenAfterPending(s.next, events);
      ReceivePhaseRequests(s.next, events);
      var t := [RequestStop, ReadNext];
      assert w.actions == Reads(NumOfRecBytes - 2) + t;
      assert s.actions + (Reads(NumOfRecBytes - 2) + t) == (s.actions + Reads(NumOfRecBytes - 2)) + t;
    }
  }

  /** The reads of an iteration start at index 0: a completed one has stored
      the nine bytes received, in arrival order, in `RXData[0..8]`, and no
      iteration writes `RXData[9]`. */
  lemma {:induction false} TransferStores(r: Reader, events: seq<Event>)
    requires Valid(r) && !r.stopEnabled
    ensures var it := LoopBody(r, events);
      && it.next.rxData[NumOfRecBytes - 1] == r.rxData[NumOfRecBytes - 1]
      && (it.completed ==>
            && it.next.xferIndex == NumOfRecBytes - 1
            && |Received(events)| >= NumOfRecBytes - 1
            && it.next.rxData[..NumOfRecBytes - 1] == Received(events)[..NumOfRecBytes - 1])
  {
    var s := Begin(r);
    var w := Sleep(s.next, events);
    assert Pending(s.next) == NumOfRecBytes - 1;
    ReceivePhaseStores(s.next, events);
    if !w.next.sleepOnExit {
      WokenAfterPending(s.next, events);
      assert w.next.rxData[..NumOfRecBytes - 1] == Received(events)[..NumOfRecBytes - 1];
    }
  }

  /** A sleep that started receiving ends only after every pending byte
      arrived. */
  lemma {:induction false} WokenAfterPending(r: Reader, events: seq<Event>)
    requires Receiving(r)
    ensures !Sleep(r, events).next.sleepOnExit ==> |Received(events)| >= Pending(r)
  {
    ReceivePhaseCompletes(r, events);
    if StopAfter(events, Pending(r)) {
      var j :| 0 <= j < |events| && events[j].stopLatched && |Received(events[..j])| >= Pending(r);
      ReceivedLength(events, j);
    }
  }

  lemma {:induction false} ReceivedLength(events: seq<Event>, j: nat)
    requires j <= |events|
    ensures |Received(events[..j])| <= |Received(events)|
    decreases j
  {
    if j > 0 {
      ReceivedPrefix(events, j);
      ReceivedLength(events[1..], j - 1);
    }
  }

  /** How the receive phase leaves the interrupt bits and the event count. */
  lemma {:induction false} ReceivePhaseEnds(r: Reader, events: seq<Event>)
    requires Receiving(r)
    ensures var w := Sleep(r, events);
      && (!w.next.sleepOnExit ==> !w.next.receiveEnabled && !w.next.stopEnabled)
      && (w.next.sleepOnExit ==> w.used == |events|)
    decreases |events|
  {
    if events != [] {
      var s := Interrupt(r, events[0]);
      if events[0].rxLatched && r.xferIndex == NumOfRecBytes - 2 {
        StopPhase(s.next, events[1..]);
      } else {
        ReceivePhaseEnds(s.next, events[1..]);
      }
    }
  }

  /** Over any number of foreground iterations, each started after the
      previous transfer's stop interrupt, every store stays inside the
      buffer and `RXData[9]` keeps its value. */
  lemma {:induction false} SessionKeepsLastEntry(r: Reader, events: seq<Event>, n: nat)
    requires Valid(r) && !r.stopEnabled
    ensures MainLoop(r, events, n).next.rxData[NumOfRecBytes - 1] == r.rxData[NumOfRecBytes - 1]
    decreases n
  {
    if n > 0 {
      var it := LoopBody(r, events);
      TransferStores(r, events);
      if it.completed {
        TransferCompletion(r, events);
        SessionKeepsLastEntry(it.next, events[it.used..], n - 1);
      }
    }
  }

  /** Over any number of foreground iterations, each started after the
      previous transfer's stop interrupt, the completed transfers make the
      requests of `OneTransfer` back to back, and after `n` of them no
      interrupt source of the module is enabled. */
  lemma {:induction false} SessionRequests(r: Reader, events: seq<Event>, n: nat)
    requires Valid(r) && !r.stopEnabled
    ensures var s := MainLoop(r, events, n);
      && s.transfers <= n
      && (s.transfers == n ==> s.actions == Transfers(n) && !s.next.stopEnabled)
      && (0 < n == s.transfers ==> !s.next.receiveEnabled)
    decreases n
  {
    if n > 0 {
      var it := LoopBody(r, events);
      if it.completed {
        TransferCompletion(r, events);
        TransferRequests(r, events);
        SessionRequests(it.next, events[it.used..], n - 1);
      }
    }
  }

  /** From `main`'s initialisation, `RXData[9]` stays 0 however many
      transfers run. */
  lemma {:induction false} LastEntryStaysZero(events: seq<Event>, n: nat)
    ensures MainLoop(Initial(), events, n).next.rxData[NumOfRecBytes - 1] == 0
  {
    SessionKeepsLastEntry(Initial(), events, n);
  }

  /** The first handler run of a sleep. */
  lemma SleepStep(r: Reader, events: seq<Event>)
    requires Valid(r) && r.sleepOnExit && events != []
    ensures var s := Interrupt(r, events[0]);
      var w := Sleep(s.next, events[1..]);
      Sleep(r, events) == Run(w.next, s.actions + w.actions, w.used + 1)
  {
  }

  /** The sleep from `start` over `events`, split after `used` events that
      made the requests `emitted` and led to state `r`. */
  ghost predicate SleepSoFar(start: Reader, events: seq<Event>, used: nat, emitted: seq<Action>, r: Reader)
    requires Valid(start) && Valid(r) && used <= |events|
  {
    var w := Sleep(r, events[used..]);
    Sleep(start, events) == Run(w.next, emitted + w.actions, used + w.used)
  }

  /** One handler run during the sleep, as the sleep loop sees it: the
      events consumed so far and the requests made so far grow by one run. */
  lemma {:induction false} SleepAdvance(start: Reader, events: seq<Event>, used: nat, emitted: seq<Action>, r: Reader)
    requires Valid(start) && Valid(r) && r.sleepOnExit && used < |events|
    requires SleepSoFar(start, events, used, emitted, r)
    ensures var s := Interrupt(r, events[used]);
      SleepSoFar(start, events, used + 1, emitted + s.actions, s.next)
  {
    var s := Interrupt(r, events[used]);
    assert events[used..][1..] == events[used + 1..];
    var w := Sleep(s.next, events[used + 1..]);
    assert emitted + (s.actions + w.actions) == (emitted + s.actions) + w.actions;
  }

  /** A sleep that has ended produces nothing more. */
  lemma SleepDone(start: Reader, events: seq<Event>, used: nat, emitted: seq<Action>, r: Reader)
    requires Valid(start) && Valid(r) && used <= |events|
    requires !r.sleepOnExit || used == |events|
    requires SleepSoFar(start, events, used, emitted, r)
    ensures Sleep(start, events) == Run(r, emitted, used)
  {
    assert emitted + [] == emitted;
  }

  // ---------------------------------------------------------------------------
  // The program's statics and the handler

  /** The statics of the program, the interrupt-enable bits of eUSCI_B0 and
      the sleep-on-exit bit, updated in place by `main` and the handler. */
  class Controller {
    const RXData: array<uint8>
    var xferIndex: nat
    var receiveEnabled: bool
    var stopEnabled: bool
    var sleepOnExit: bool

    /** The requests made to the module so far. */
    ghost var trace: seq<Action>

    function State(): Reader
      reads this, RXData
    {
      Reader(RXData[..], xferIndex, receiveEnabled, stopEnabled, sleepOnExit)
    }

    /** `main`'s initialisation before the loop, including the `memset` of
        `RXData`. */
    constructor ()
      ensures fresh(RXData)
      ensures State() == Initial() && Valid(State()) && trace == []
    {
      RXData := new uint8[NumOfRecBytes](_ => 0);
      xferIndex := 0;
      receiveEnabled := false;
      stopEnabled := false;
      sleepOnExit := false;
      trace := [];
    }

    /** The body of the foreground loop up to the sleep: write `TXData[0]`
        with START, reset the index, restart as receiver, enable the receive
        interrupt. */
    method StartTransfer()
      modifies this
      ensures var s := Begin(old(State()));
        State() == s.next && trace == old(trace) + s.actions
    {
      sleepOnExit := true;
      trace := trace + [StartWrite(TXData[0])];
      xferIndex := 0;
      trace := trace + [StartRead];
      receiveEnabled := true;
    }

    /** `EUSCIB0_IRQHandler`; `e` gives the latched flags and the byte in the
        receive register. */
    method OnInterrupt(e: Event)
      requires Valid(State())
      modifies this, RXData
      ensures var s := Interrupt(old(State()), e);
        State() == s.next && trace == old(trace) + s.actions
    {
      if e.rxLatched && receiveEnabled {
        if xferIndex == NumOfRecBytes - 2 {
          receiveEnabled := false;
          stopEnabled := true;
          trace := trace + [RequestStop];
        }
        RXData[xferIndex] := e.rxByte;
        xferIndex := xferIndex + 1;
        trace := trace + [ReadNext];
      } else if e.stopLatched && stopEnabled {
        sleepOnExit := false;
        stopEnabled := false;
      }
    }

    /** `PCM_gotoLPM0InterruptSafe` with sleep-on-exit set: each element of
        `events` wakes the handler once, and the foreground resumes after the
        run that clears sleep-on-exit. */
    method AwaitStop(events: seq<Event>) returns (used: nat)
      requires Valid(State())
      modifies this, RXData
      ensures var w := Sleep(old(State()), events);
        State() == w.next && used == w.used && trace == old(trace) + w.actions
    {
      used := 0;
      ghost var start := State();
      ghost var trace0 := trace;
      ghost var emitted: seq<Action> := [];
      while sleepOnExit && used < |events|
        invariant Valid(State()) && used <= |events|
        invariant trace == trace0 + emitted
        invariant SleepSoFar(start, events, used, emitted, State())
        decreases |events| - used
      {
        ghost var before := State();
        SleepAdvance(start, events, used, emitted, before);
        OnInterrupt(events[used]);
        emitted := emitted + Interrupt(before, events[used]).actions;
        used := used + 1;
      }
      SleepDone(start, events, used, emitted, State());
    }

    /** One iteration of the foreground loop; the wait for the previous STOP
        to go out is not modelled. */
    method RunIteration(events: seq<Event>) returns (used: nat, completed: bool)
      requires Valid(State())
      modifies this, RXData
      ensures var it := LoopBody(old(State()), events);
        && State() == it.next && used == it.used && completed == it.completed
        && trace == old(trace) + it.actions
    {
      StartTransfer();
      used := AwaitStop(events);
      completed := !sleepOnExit;
    }
  }
}
