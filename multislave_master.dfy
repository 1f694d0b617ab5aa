/**
 * The multi-slave master transmitter. The foreground loop loads a byte counter
 * of 4, chooses slave 0x48 or 0x49 from a flip-flop and sends the first byte
 * with a START; the eUSCI_B0 interrupt handler sends the remaining bytes, issues
 * STOP once the counter is exhausted, raises `sendStopCondition` and toggles the
 * flip-flop; a NACK makes it re-issue START and nothing else.
 *
 * Bus requests are recorded as `Action`s, in the order the code makes them.
 * The foreground sleeps while the handler runs; each handler run is one atomic
 * step that consumes one latched status from a finite sequence of events.
 */
module MultiSlaveMaster {
  import opened I2cTypes

  const SlaveAddress1: Address := 0x48
  const SlaveAddress2: Address := 0x49

  /** The value the foreground loads into `TXByteCtr` before every transfer. */
  const BytesPerTransfer: uint8 := 4

  /** A request made to the eUSCI_B0 module. */
  datatype Action =
    | Start(address: Address, data: uint8)  // set the slave address, START and first byte
    | Next(data: uint8)                     // next byte of the multi-byte write
    | Stop                                  // STOP after the last byte
    | Restart                               // START re-issued after a NACK

  /** The enabled interrupt flags latched when the handler runs. The handler
      tests only the NACK bit: every other status, with the transmit flag
      latched or not, runs the byte-counter branch. */
  datatype Status = Status(nak: bool)

  /** The four statics of the program. */
  datatype Master = Master(txData: uint8, txByteCtr: uint8, sendStopCondition: bool, sendToSlaveAddress2: bool)

  datatype Step = Step(next: Master, action: Action)

  /** What the foreground's wait for `sendStopCondition` produced: the final
      state, the requests made, and how many events the handler consumed. */
  datatype Run = Run(next: Master, actions: seq<Action>, used: nat)

  /** One iteration of the foreground loop; `completed` is false when the
      events ran out while the foreground was still waiting. */
  datatype Iteration = Iteration(next: Master, actions: seq<Action>, used: nat, completed: bool)

  /** Several iterations of the foreground loop; `transfers` counts the completed ones. */
  datatype Session = Session(next: Master, actions: seq<Action>, used: nat, transfers: nat)

  /** The statics after `main`'s initialisation (`TXByteCtr` is zero as a C static). */
  function Initial(): Master {
    Master(0, 0, false, false)
  }

  /** The counter never exceeds the value the foreground loads. */
  predicate Valid(m: Master) {
    m.txByteCtr <= BytesPerTransfer
  }

  /** The slave the flip-flop selects. */
  function Target(toSlave2: bool): Address {
    if toSlave2 then SlaveAddress2 else SlaveAddress1
  }

  /** The foreground's start of a transfer: load the counter, pick the slave,
      send `TXData++` with START and count that byte. */
  function Begin(m: Master): Step {
    var loaded := m.(txByteCtr := BytesPerTransfer);
    Step(loaded.(txData := Inc8(m.txData), txByteCtr := loaded.txByteCtr - 1),
         Start(Target(m.sendToSlaveAddress2), m.txData))
  }

  /** `EUSCIB0_IRQHandler`: one run of the interrupt handler on a latched
      status. A NACK changes no static and only re-issues START; otherwise the
      handler sends the current `TXData` and counts it down while the counter
      is non-zero (so it never goes below 0), and issues STOP, raises
      `sendStopCondition` and toggles the flip-flop exactly when it finds the
      counter at 0. */
  function Interrupt(m: Master, status: Status): (r: Step)
    ensures status.nak ==> r == Step(m, Restart)
    ensures r.action == Stop <==> !status.nak && m.txByteCtr == 0
    ensures r.action.Next? <==> !status.nak && m.txByteCtr != 0
    ensures r.action.Next? ==>
              r.action.data == m.txData && r.next.txData == Inc8(m.txData) && r.next.txByteCtr == m.txByteCtr - 1
    ensures !r.action.Next? ==> r.next.txData == m.txData && r.next.txByteCtr == m.txByteCtr
    ensures r.next.sendStopCondition <==> m.sendStopCondition || r.action == Stop
    ensures r.next.sendToSlaveAddress2 <==> (m.sendToSlaveAddress2 != (r.action == Stop))
  {
    if status.nak then
      Step(m, Restart)
    else if m.txByteCtr != 0 then
      Step(m.(txData := Inc8(m.txData), txByteCtr := m.txByteCtr - 1), Next(m.txData))
    else
      Step(m.(sendStopCondition := true, sendToSlaveAddress2 := !m.sendToSlaveAddress2), Stop)
  }

  /** The foreground sleeps while `sendStopCondition` is false; every wake-up
      is one handler run on the next event. */
  function Await(m: Master, events: seq<Status>): (r: Run)
    ensures r.used <= |events|
    decreases |events|
  {
    if m.sendStopCondition || events == [] then
      Run(m, [], 0)
    else
      var s := Interrupt(m, events[0]);
      var w := Await(s.next, events[1..]);
      Run(w.next, [s.action] + w.actions, w.used + 1)
  }

  /** One iteration of the foreground `while (1)` loop. */
  function LoopBody(m: Master, events: seq<Status>): (r: Iteration)
    ensures r.used <= |events|
  {
    var s := Begin(m);
    var w := Await(s.next, events);
    if w.next.sendStopCondition then
      Iteration(w.next.(sendStopCondition := false), [s.action] + w.actions, w.used, true)
    else
      Iteration(w.next, [s.action] + w.actions, w.used, false)
  }

  /** `n` iterations of the foreground loop, stopping early at one that does
      not complete. */
  function MainLoop(m: Master, events: seq<Status>, n: nat): (r: Session)
    ensures r.used <= |events|
    decreases n
  {
    if n == 0 then
      Session(m, [], 0, 0)
    else
      var it := LoopBody(m, events);
      if !it.completed then
        Session(it.next, it.actions, it.used, 0)
      else
        var rest := MainLoop(it.next, events[it.used..], n - 1);
        Session(rest.next, it.actions + rest.actions, it.used + rest.used, rest.transfers + 1)
  }

  // ---------------------------------------------------------------------------
  // Views of a request trace

  /** Number of events the handler treats as "ready to transmit" (no NAK). */
  function TxCount(events: seq<Status>): nat {
    if events == [] then 0 else (if events[0].nak then 0 else 1) + TxCount(events[1..])
  }

  /** The trace without the START retries caused by NACKs. */
  function Framed(acts: seq<Action>): seq<Action> {
    if acts == [] then [] else (if acts[0] == Restart then [] else [acts[0]]) + Framed(acts[1..])
  }

  /** The data bytes written to the bus, in order. */
  function Payload(acts: seq<Action>): seq<uint8> {
    if acts == [] then []
    else (match acts[0] case Start(_, b) => [b] case Next(b) => [b] case _ => []) + Payload(acts[1..])
  }

  /** The slave addresses of the transfers, in order. */
  function Starts(acts: seq<Action>): seq<Address> {
    if acts == [] then [] else (if acts[0].Start? then [acts[0].address] else []) + Starts(acts[1..])
  }

  /** `n` `Next` requests carrying `b`, `b + 1`, ... modulo 256. */
  function Nexts(b: uint8, n: nat): seq<Action>
    decreases n
  {
    if n == 0 then [] else [Next(b)] + Nexts(Inc8(b), n - 1)
  }

  /** `b`, `b + 1`, ..., `b + n - 1`, each modulo 256. */
  function Consecutive(b: uint8, n: nat): (r: seq<uint8>)
    ensures |r| == n
    decreases n
  {
    if n == 0 then [] else [b] + Consecutive(Inc8(b), n - 1)
  }

  lemma {:induction false} FramedAppend(a: seq<Action>, b: seq<Action>)
    ensures Framed(a + b) == Framed(a) + Framed(b)
  {
    if a == [] {
      assert a + b == b;
    } else {
      var head := (if a[0] == Restart then [] else [a[0]]);
      assert (a + b)[0] == a[0];
      assert (a + b)[1..] == a[1..] + b;
      FramedAppend(a[1..], b);
      calc {
        Framed(a + b);
        head + Framed(a[1..] + b);
        head + (Framed(a[1..]) + Framed(b));
        (head + Framed(a[1..])) + Framed(b);
      }
    }
  }

  lemma {:induction false} PayloadAppend(a: seq<Action>, b: seq<Action>)
    ensures Payload(a + b) == Payload(a) + Payload(b)
  {
    if a == [] {
      assert a + b == b;
    } else {
      var head := (match a[0] case Start(_, b) => [b] case Next(b) => [b] case _ => []);
      assert (a + b)[0] == a[0];
      assert (a + b)[1..] == a[1..] + b;
      PayloadAppend(a[1..], b);
      calc {
        Payload(a + b);
        head + Payload(a[1..] + b);
        head + (Payload(a[1..]) + Payload(b));
        (head + Payload(a[1..])) + Payload(b);
      }
    }
  }

  lemma {:induction false} StartsAppend(a: seq<Action>, b: seq<Action>)
    ensures Starts(a + b) == Starts(a) + Starts(b)
  {
    if a == [] {
      assert a + b == b;
    } else {
      var head := (if a[0].Start? then [a[0].address] else []);
      assert (a + b)[0] == a[0];
      assert (a + b)[1..] == a[1..] + b;
      StartsAppend(a[1..], b);
      calc {
        Starts(a + b);
        head + Starts(a[1..] + b);
        head + (Starts(a[1..]) + Starts(b));
        (head + Starts(a[1..])) + Starts(b);
      }
    }
  }

  lemma {:induction false} NextsPayload(b: uint8, n: nat)
    decreases n
    ensures Payload(Nexts(b, n)) == Consecutive(b, n)
    ensures Starts(Nexts(b, n)) == []
    ensures Framed(Nexts(b, n)) == Nexts(b, n)
  {
    if n > 0 {
      NextsPayload(Inc8(b), n - 1);
    }
  }

  lemma {:induction false} ConsecutiveAppend(b: uint8, k: nat, l: nat)
    decreases k
    ensures Consecutive(b, k) + Consecutive(Add8(b, k), l) == Consecutive(b, k + l)
  {
    if k > 0 {
      Add8Succ(b, k - 1);
      ConsecutiveAppend(Inc8(b), k - 1, l);
    } else {
      assert Add8(b, 0) == b;
    }
  }

  lemma {:induction false} TxCountPrefix(events: seq<Status>, k: nat)
    requires 0 < k <= |events|
    ensures TxCount(events[..k]) == (if events[0].nak then 0 else 1) + TxCount(events[1..][..k - 1])
  {
    assert events[..k][1..] == events[1..][..k - 1];
  }

  // ---------------------------------------------------------------------------
  // Properties

  /** The outcome of the wait for STOP from state `m`: the handler sends the
      bytes still counted in `TXByteCtr`, consecutive values of `TXData`, and
      then issues exactly one STOP; it gets there exactly when more "ready"
      events arrive than bytes remain. NACKs only add START retries. */
  ghost predicate SendsRemaining(m: Master, events: seq<Status>, w: Run) {
    && w.used <= |events|
    && (w.next.sendStopCondition <==> TxCount(events) > m.txByteCtr as int)
    && Starts(w.actions) == []
    && (w.next.sendStopCondition ==>
          && Framed(w.actions) == Nexts(m.txData, m.txByteCtr as nat) + [Stop]
          && 0 < w.used && !events[w.used - 1].nak
          && TxCount(events[..w.used]) == m.txByteCtr as int + 1
          && w.next.txData == Add8(m.txData, m.txByteCtr as nat)
          && w.next.txByteCtr == 0
          && w.next.sendToSlaveAddress2 == !m.sendToSlaveAddress2)
    && (!w.next.sendStopCondition ==>
          && w.used == |events|
          && Framed(w.actions) == Nexts(m.txData, TxCount(events))
          && w.next.txData == Add8(m.txData, TxCount(events))
          && w.next.txByteCtr as int == m.txByteCtr as int - TxCount(events)
          && w.next.sendToSlaveAddress2 == m.sendToSlaveAddress2)
  }

  lemma {:induction false} AwaitNak(m: Master, events: seq<Status>)
    requires !m.sendStopCondition && events != [] && events[0].nak
    requires SendsRemaining(m, events[1..], Await(m, events[1..]))
    ensures SendsRemaining(m, events, Await(m, events))
  {
    var rest := Await(m, events[1..]);
    var w := Await(m, events);
    assert w == Run(rest.next, [Restart] + rest.actions, rest.used + 1);
    FramedAppend([Restart], rest.actions);
    StartsAppend([Restart], rest.actions);
    TxCountPrefix(events, w.used);
  }

  lemma {:induction false} AwaitNext(m: Master, events: seq<Status>)
    requires !m.sendStopCondition && events != [] && !events[0].nak && m.txByteCtr != 0
    requires var s := Interrupt(m, events[0]);
      SendsRemaining(s.next, events[1..], Await(s.next, events[1..]))
    ensures SendsRemaining(m, events, Await(m, events))
  {
    var s := Interrupt(m, events[0]);
    var rest := Await(s.next, events[1..]);
    var w := Await(m, events);
    assert w == Run(rest.next, [Next(m.txData)] + rest.actions, rest.used + 1);
    FramedAppend([Next(m.txData)], rest.actions);
    StartsAppend([Next(m.txData)], rest.actions);
    TxCountPrefix(events, w.used);
    Add8Succ(m.txData, if rest.next.sendStopCondition then (m.txByteCtr - 1) as nat else TxCount(events[1..]));
  }

  lemma {:induction false} AwaitLast(m: Master, events: seq<Status>)
    requires !m.sendStopCondition && events != [] && !events[0].nak && m.txByteCtr == 0
    ensures SendsRemaining(m, events, Await(m, events))
  {
    var s := Interrupt(m, events[0]);
    var w := Await(m, events);
    assert Await(s.next, events[1..]) == Run(s.next, [], 0);
    assert w == Run(s.next, [Stop], 1);
    assert Framed([Stop]) == [Stop];
    assert events[..1][1..] == [];
    assert Add8(m.txData, 0) == m.txData;
  }

  /** The wait for STOP started with `sendStopCondition` false ends as
      `SendsRemaining` describes. */
  lemma {:induction false} AwaitSendsRemaining(m: Master, events: seq<Status>)
    requires !m.sendStopCondition
    ensures SendsRemaining(m, events, Await(m, events))
    decreases |events|
  {
    if events == [] {
      assert Add8(m.txData, 0) == m.txData;
    } else if events[0].nak {
      AwaitSendsRemaining(m, events[1..]);
      AwaitNak(m, events);
    } else if m.txByteCtr != 0 {
      AwaitSendsRemaining(Interrupt(m, events[0]).next, events[1..]);
      AwaitNext(m, events);
    } else {
      AwaitLast(m, events);
    }
  }

  /** The handler only counts down, and only from a non-zero value, so
      during a wait the counter never grows and never leaves 0..4. */
  lemma {:induction false} AwaitKeepsCounter(m: Master, events: seq<Status>)
    requires Valid(m)
    ensures var w := Await(m, events);
      Valid(w.next) && w.next.txByteCtr <= m.txByteCtr
    decreases |events|
  {
    if !m.sendStopCondition && events != [] {
      AwaitKeepsCounter(Interrupt(m, events[0]).next, events[1..]);
    }
  }

  /** Every foreground iteration reloads the counter to 4 and the START byte
      takes one count, so over any number of iterations the counter stays in
      0..4. */
  lemma {:induction false} SessionKeepsCounter(m: Master, events: seq<Status>, n: nat)
    requires Valid(m)
    ensures Valid(MainLoop(m, events, n).next)
    decreases n
  {
    if n > 0 {
      var it := LoopBody(m, events);
      AwaitKeepsCounter(Begin(m).next, events);
      if it.completed {
        MainLoopCompleted(m, events, n);
        SessionKeepsCounter(it.next, events[it.used..], n - 1);
      }
    }
  }

  /** One foreground iteration started with `sendStopCondition` false: it
      addresses the slave the flip-flop selects and writes exactly four
      consecutive bytes, the first with START, then STOP; it completes exactly
      when four "ready" events arrive, the last of the events it consumed is
      the one that issued STOP, and it ends with the counter at 0, the flag
      cleared again and the flip-flop toggled. */
  lemma {:induction false} TransferWritesFourBytes(m: Master, events: seq<Status>)
    requires !m.sendStopCondition
    ensures var it := LoopBody(m, events);
      var b := m.txData;
      && (it.completed <==> TxCount(events) >= BytesPerTransfer as int)
      && (it.completed ==>
            && Framed(it.actions) ==
                 [Start(Target(m.sendToSlaveAddress2), b), Next(Add8(b, 1)), Next(Add8(b, 2)), Next(Add8(b, 3)), Stop]
            && 0 < it.used && !events[it.used - 1].nak
            && TxCount(events[..it.used]) == BytesPerTransfer as int
            && it.next == Master(Add8(b, 4), 0, false, !m.sendToSlaveAddress2))
      && (!it.completed ==>
            && it.used == |events|
            && Framed(it.actions) == [Start(Target(m.sendToSlaveAddress2), b)] + Nexts(Inc8(b), TxCount(events))
            && it.next.txByteCtr as int == BytesPerTransfer as int - 1 - TxCount(events)
            && !it.next.sendStopCondition && it.next.sendToSlaveAddress2 == m.sendToSlaveAddress2)
  {
    var s := Begin(m);
    var w := Await(s.next, events);
    AwaitSendsRemaining(s.next, events);
    FramedAppend([s.action], w.actions);
    var b := m.txData;
    Add8Succ(b, 0);
    Add8Succ(b, 3);
    if w.next.sendStopCondition {
      NextsThree(b);
    }
  }

  /** The three `Next` requests that follow a START carrying `b`. */
  lemma {:induction false} NextsThree(b: uint8)
    ensures Nexts(Inc8(b), 3) == [Next(Add8(b, 1)), Next(Add8(b, 2)), Next(Add8(b, 3))]
  {
    var b1 := Inc8(b);
    var b2 := Inc8(b1);
    var b3 := Inc8(b2);
    assert Nexts(b3, 1) == [Next(b3)];
    assert Nexts(b2, 2) == [Next(b2), Next(b3)];
    assert Nexts(b1, 3) == [Next(b1), Next(b2), Next(b3)];
    Add8Succ(b, 1);
    assert b2 == Add8(b, 2);
    Add8Add(b, 2, 1);
    assert b3 == Add8(b, 3);
  }

  /** What one iteration contributes to the slave addresses and the flags:
      one START, to the slave the flip-flop selects; afterwards the flag is
      false and the flip-flop has toggled exactly when the iteration
      completed. */
  lemma {:induction false} IterationStarts(m: Master, events: seq<Status>)
    requires !m.sendStopCondition
    ensures var it := LoopBody(m, events);
      && Starts(it.actions) == [Target(m.sendToSlaveAddress2)]
      && !it.next.sendStopCondition
      && it.next.sendToSlaveAddress2 == (m.sendToSlaveAddress2 != it.completed)
  {
    var s := Begin(m);
    var w := Await(s.next, events);
    AwaitSendsRemaining(s.next, events);
    StartsAppend([s.action], w.actions);
  }

  /** What one iteration contributes to the data bytes: consecutive values
      from `TXData`, four of them when it completes, with `TXData` advanced
      past them. */
  lemma {:induction false} IterationPayload(m: Master, events: seq<Status>)
    requires !m.sendStopCondition
    ensures var it := LoopBody(m, events);
      && Payload(it.actions) == Consecutive(m.txData, |Payload(it.actions)|)
      && it.next.txData == Add8(m.txData, |Payload(it.actions)|)
      && (it.completed ==> |Payload(it.actions)| == BytesPerTransfer as int)
  {
    var s := Begin(m);
    var w := Await(s.next, events);
    AwaitSendsRemaining(s.next, events);
    PayloadAppend([s.action], w.actions);
    var k := if w.next.sendStopCondition then (BytesPerTransfer - 1) as nat else TxCount(events);
    assert Payload(w.actions) == Consecutive(Inc8(m.txData), k) by {
      PayloadOfFramed(w.actions);
      if w.next.sendStopCondition {
        PayloadAppend(Nexts(Inc8(m.txData), k), [Stop]);
      }
      NextsPayload(Inc8(m.txData), k);
    }
    assert Consecutive(m.txData, 1 + k) == [m.txData] + Consecutive(Inc8(m.txData), k);
    Add8Succ(m.txData, k);
  }

  lemma {:induction false} PayloadOfFramed(acts: seq<Action>)
    ensures Payload(Framed(acts)) == Payload(acts)
  {
    if acts != [] {
      PayloadOfFramed(acts[1..]);
      PayloadAppend(if acts[0] == Restart then [] else [acts[0]], Framed(acts[1..]));
    }
  }

  /** `MainLoop` after a completed first iteration. */
  lemma MainLoopCompleted(m: Master, events: seq<Status>, n: nat)
    requires n > 0 && LoopBody(m, events).completed
    ensures var it := LoopBody(m, events);
      var rest := MainLoop(it.next, events[it.used..], n - 1);
      MainLoop(m, events, n) == Session(rest.next, it.actions + rest.actions, it.used + rest.used, rest.transfers + 1)
  {
  }

  /** `addrs` starts with the slave `first` selects and alternates from there. */
  predicate Alternates(addrs: seq<Address>, first: bool) {
    addrs == [] || (addrs[0] == Target(first) && Alternates(addrs[1..], !first))
  }

  /** Alternation read by position: the `j`-th address is the one the
      flip-flop selects after `j` toggles from `first`. */
  lemma {:induction false} AlternatesAt(addrs: seq<Address>, first: bool, j: nat)
    requires Alternates(addrs, first) && j < |addrs|
    ensures addrs[j] == Target(first != Odd(j))
  {
    if j > 0 {
      AlternatesAt(addrs[1..], !first, j - 1);
    }
  }

  /** Over any number of foreground iterations started with the flag false,
      the transfers address 0x48 and 0x49 alternately, starting from the
      slave the flip-flop selects. */
  lemma {:induction false} TransfersAlternate(m: Master, events: seq<Status>, n: nat)
    requires !m.sendStopCondition
    ensures Alternates(Starts(MainLoop(m, events, n).actions), m.sendToSlaveAddress2)
    decreases n
  {
    if n > 0 {
      var it := LoopBody(m, events);
      IterationStarts(m, events);
      if it.completed {
        var rest := MainLoop(it.next, events[it.used..], n - 1);
        MainLoopCompleted(m, events, n);
        TransfersAlternate(it.next, events[it.used..], n - 1);
        StartsAppend(it.actions, rest.actions);
        assert ([Target(m.sendToSlaveAddress2)] + Starts(rest.actions))[1..] == Starts(rest.actions);
      } else {
        assert [Target(m.sendToSlaveAddress2)][1..] == [];
      }
    }
  }

  /** Over any number of foreground iterations started with the flag false,
      every iteration but an unfinished last one completes, and each
      iteration that runs makes exactly one START. */
  lemma {:induction false} TransfersCount(m: Master, events: seq<Status>, n: nat)
    requires !m.sendStopCondition
    ensures var s := MainLoop(m, events, n);
      && s.transfers <= n
      && |Starts(s.actions)| == (if s.transfers == n then n else s.transfers + 1)
    decreases n
  {
    if n > 0 {
      var it := LoopBody(m, events);
      IterationStarts(m, events);
      if it.completed {
        var rest := MainLoop(it.next, events[it.used..], n - 1);
        MainLoopCompleted(m, events, n);
        TransfersCount(it.next, events[it.used..], n - 1);
        StartsAppend(it.actions, rest.actions);
      }
    }
  }

  /** After `n` completed iterations from `m`, the flag is false and the
      flip-flop has toggled `n` times. */
  ghost predicate ToggledBy(m: Master, events: seq<Status>, n: nat) {
    var s := MainLoop(m, events, n);
    s.transfers == n ==>
      !s.next.sendStopCondition && s.next.sendToSlaveAddress2 == (m.sendToSlaveAddress2 != Odd(n))
  }

  lemma {:induction false} ToggleStep(m: Master, events: seq<Status>, n: nat)
    requires !m.sendStopCondition && n > 0
    requires var it := LoopBody(m, events);
      it.completed && ToggledBy(it.next, events[it.used..], n - 1)
    ensures ToggledBy(m, events, n)
  {
    var it := LoopBody(m, events);
    IterationStarts(m, events);
    MainLoopCompleted(m, events, n);
    assert Odd(n) == !Odd(n - 1);
  }

  /** After `n` completed iterations started with the flag false, the flag
      is false and the flip-flop has toggled `n` times. */
  lemma {:induction false} TransfersToggle(m: Master, events: seq<Status>, n: nat)
    requires !m.sendStopCondition
    ensures ToggledBy(m, events, n)
    decreases n
  {
    if n > 0 {
      var it := LoopBody(m, events);
      if it.completed {
        IterationStarts(m, events);
        TransfersToggle(it.next, events[it.used..], n - 1);
        ToggleStep(m, events, n);
      }
    }
  }

  /** `n` is odd. Parity is defined by recursion so that induction over
      transfers unfolds it one step at a time; `OddMod` ties it to `n % 2`,
      which the solver handles less reliably inside those inductions. */
  predicate Odd(n: nat) {
    if n == 0 then false else !Odd(n - 1)
  }

  lemma {:induction false} OddMod(n: nat)
    ensures Odd(n) <==> n % 2 == 1
  {
    if n > 0 {
      OddMod(n - 1);
    }
  }

  /** Over any number of foreground iterations started with the flag false,
      the bytes on the bus are consecutive values of `TXData` modulo 256,
      across transfer boundaries. */
  lemma {:induction false} TransfersSendConsecutiveBytes(m: Master, events: seq<Status>, n: nat)
    requires !m.sendStopCondition
    ensures var s := MainLoop(m, events, n);
      Payload(s.actions) == Consecutive(m.txData, |Payload(s.actions)|)
    decreases n
  {
    if n > 0 {
      var it := LoopBody(m, events);
      IterationPayload(m, events);
      if it.completed {
        IterationStarts(m, events);
        var rest := MainLoop(it.next, events[it.used..], n - 1);
        MainLoopCompleted(m, events, n);
        TransfersSendConsecutiveBytes(it.next, events[it.used..], n - 1);
        PayloadAppend(it.actions, rest.actions);
        ConsecutiveAppend(m.txData, |Payload(it.actions)|, |Payload(rest.actions)|);
      }
    }
  }

  /** `n` completed transfers advance `TXData` by 4 each, modulo 256. */
  lemma {:induction false} TransfersAdvanceData(m: Master, events: seq<Status>, n: nat)
    requires !m.sendStopCondition
    ensures var s := MainLoop(m, events, n);
      s.transfers == n ==> s.next.txData == Add8(m.txData, BytesPerTransfer as nat * n)
    decreases n
  {
    if n == 0 {
      assert Add8(m.txData, 0) == m.txData;
    } else {
      var it := LoopBody(m, events);
      if it.completed {
        IterationPayload(m, events);
        IterationStarts(m, events);
        var rest := MainLoop(it.next, events[it.used..], n - 1);
        MainLoopCompleted(m, events, n);
        TransfersAdvanceData(it.next, events[it.used..], n - 1);
        var k := BytesPerTransfer as nat;
        assert it.next.txData == Add8(m.txData, k);
        Add8Add(m.txData, k, k * (n - 1));
        assert k + k * (n - 1) == k * n;
      }
    }
  }

  /** From `main`'s initialisation: the first transfer goes to 0x48, the
      next to 0x49 and so on alternately, and the bytes written are 0, 1, 2,
      ... modulo 256. */
  lemma {:induction false} SessionFromReset(events: seq<Status>, n: nat)
    ensures var s := MainLoop(Initial(), events, n);
      && (forall j :: 0 <= j < |Starts(s.actions)| ==>
            Starts(s.actions)[j] == if j % 2 == 0 then SlaveAddress1 else SlaveAddress2)
      && Payload(s.actions) == Consecutive(0, |Payload(s.actions)|)
  {
    var s := MainLoop(Initial(), events, n);
    TransfersAlternate(Initial(), events, n);
    TransfersSendConsecutiveBytes(Initial(), events, n);
    forall j | 0 <= j < |Starts(s.actions)|
      ensures Starts(s.actions)[j] == if j % 2 == 0 then SlaveAddress1 else SlaveAddress2
    {
      AlternatesAt(Starts(s.actions), false, j);
      OddMod(j);
    }
  }

  /** One handler run during the wait, as the wait loop sees it: the events
      consumed so far and the requests made so far grow by one run. */
  lemma {:induction false} AwaitAdvance(start: Master, events: seq<Status>, used: nat, emitted: seq<Action>, m: Master)
    requires !m.sendStopCondition && used < |events|
    requires var w := Await(m, events[used..]);
      Await(start, events) == Run(w.next, emitted + w.actions, used + w.used)
    ensures var s := Interrupt(m, events[used]);
      var w := Await(s.next, events[used + 1..]);
      Await(start, events) == Run(w.next, (emitted + [s.action]) + w.actions, (used + 1) + w.used)
  {
    var s := Interrupt(m, events[used]);
    assert events[used..][1..] == events[used + 1..];
    var w := Await(s.next, events[used + 1..]);
    assert emitted + ([s.action] + w.actions) == (emitted + [s.action]) + w.actions;
  }

  /** The program's statics, updated in place by the foreground and the handler. */
  class Controller {
    var TXData: uint8
    var TXByteCtr: uint8
    var sendStopCondition: bool
    var sendToSlaveAddress2: bool

    /** The requests made to the module so far. */
    ghost var trace: seq<Action>

    function State(): Master
      reads this
    {
      Master(TXData, TXByteCtr, sendStopCondition, sendToSlaveAddress2)
    }

    /** `main`'s initialisation before the loop. */
    constructor ()
      ensures State() == Initial() && Valid(State()) && trace == []
    {
      TXData := 0;
      TXByteCtr := 0;
      sendStopCondition := false;
      sendToSlaveAddress2 := false;
      trace := [];
    }

    /** Load the counter, select the slave, send the first byte with START. */
    method StartTransfer()
      modifies this
      ensures var s := Begin(old(State()));
        State() == s.next && trace == old(trace) + [s.action]
      ensures Valid(State())
    {
      TXByteCtr := BytesPerTransfer;
      var address := if sendToSlaveAddress2 then SlaveAddress2 else SlaveAddress1;
      trace := trace + [Start(address, TXData)];
      TXData := Inc8(TXData);
      TXByteCtr := TXByteCtr - 1;
    }

    /** `EUSCIB0_IRQHandler`. */
    method OnInterrupt(status: Status)
      modifies this
      ensures var s := Interrupt(old(State()), status);
        State() == s.next && trace == old(trace) + [s.action]
      ensures old(Valid(State())) ==> Valid(State())
    {
      if status.nak {
        trace := trace + [Restart];
        return;
      }
      if TXByteCtr != 0 {
        trace := trace + [Next(TXData)];
        TXData := Inc8(TXData);
        TXByteCtr := TXByteCtr - 1;
      } else {
        trace := trace + [Stop];
        sendStopCondition := true;
        sendToSlaveAddress2 := !sendToSlaveAddress2;
      }
    }

    /** The foreground's sleep loop while `sendStopCondition` is false; each
        element of `events` wakes the handler once. */
    method AwaitStop(events: seq<Status>) returns (used: nat)
      modifies this
      ensures var w := Await(old(State()), events);
        State() == w.next && used == w.used && trace == old(trace) + w.actions
    {
      used := 0;
      ghost var start := State();
      ghost var emitted: seq<Action> := [];
      while !sendStopCondition && used < |events|
        invariant used <= |events|
        invariant trace == old(trace) + emitted
        invariant var w := Await(State(), events[used..]);
          Await(start, events) == Run(w.next, emitted + w.actions, used + w.used)
      {
        ghost var before := State();
        AwaitAdvance(start, events, used, emitted, before);
        OnInterrupt(events[used]);
        emitted := emitted + [Interrupt(before, events[used]).action];
        used := used + 1;
      }
    }

    /** One iteration of the foreground loop. */
    method RunIteration(events: seq<Status>) returns (used: nat, completed: bool)
      modifies this
      ensures var it := LoopBody(old(State()), events);
        && State() == it.next && used == it.used && completed == it.completed
        && trace == old(trace) + it.actions
    {
      StartTransfer();
      used := AwaitStop(events);
      completed := sendStopCondition;
      if completed {
        sendStopCondition := false;
      }
    }
  }
}
