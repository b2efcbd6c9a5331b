/** The node's variables, updated in place by its three parties. Each method is one step of one
    party, with the place in the code where that step is taken as its precondition; which method
    runs next is up to the interrupt and the scheduler. */
module Node {
  import opened Text
  import opened MeterReport
  import opened Uart
  import opened Mote

  class Teleinfo {
    var rxTeleinfo: nat
    var ring: string
    var inbox: nat
    var papp: int
    var iinst: int
    var base: int
    var state: bv8
    var thread: ThreadPc
    var main: MainPc
    var queue: seq<Message>
    var buffers: nat               // how many report buffers malloc has returned
    ghost var log: Log
    ghost var history: seq<Event>  // the steps taken so far

    ghost function Snapshot(): State
      reads this
    {
      State(rxTeleinfo, ring, inbox, Results(papp, iinst, base, state), thread, main, queue, log)
    }

    /** The object is where some run of the protocol leads, so whatever every run keeps holds of it. */
    ghost predicate Valid()
      reads this
    {
      Snapshot() == Run(history) && buffers == |log.made|
    }

    /** What each method does: the step e of the protocol, as the next one of the run. */
    twostate predicate Took(e: Event)
      reads this
    {
      Valid() && history == old(history) + [e] && Snapshot() == Next(old(Snapshot()), e)
    }

    ghost method Record(e: Event)
      requires Valid()
      modifies `history
      ensures history == old(history) + [e] && Run(history) == Next(Snapshot(), e)
    {
      RunSnoc(history, e);
      history := history + [e];
    }

    /** teleinfo_init, with main about to start its first cycle. */
    constructor ()
      ensures Valid() && history == []
    {
      rxTeleinfo, ring, inbox := 0, "", 0;
      papp, iinst, base, state := 0, 0, 0, 0;
      thread, main, queue, buffers := Receiving, Enabling(1), [], 0;
      log := BOOT.log;
      history := [];
    }

    // ---- the interrupt

    /** teleinfo_rx_cb */
    method RxCb(data: byte)
      requires Valid()
      modifies this
      ensures Took(Byte(data))
    {
      Record(Byte(data));
      if rxTeleinfo != 0 {
        var c := SevenBits(data);
        if c == '\n' {
          if thread.Receiving? && inbox == 0 {
            thread := Fetching;
          } else if inbox < QUEUE_SIZE {
            inbox := inbox + 1;
          }
        } else if c >= ' ' {
          log := log.(accepted := log.accepted + [c], lost := log.lost + if |ring| < UART_BUFSIZE then 0 else 1);
          ring := AddOne(ring, c);
        }
      }
    }

    // ---- teleinfo_run

    method MsgReceive()
      requires Valid() && thread.Receiving? && inbox > 0
      modifies this
      ensures Took(Thread)
    {
      Record(Thread);
      inbox := inbox - 1;
      thread := Fetching;
    }

    method RingbufferGet()
      requires Valid() && thread.Fetching?
      modifies this
      ensures Took(Thread)
    {
      Record(Thread);
      log := log.(drained := log.drained + [ring]);
      thread := Parsing(ring);
      ring := "";
    }

    /** The branches that read a line. */
    method ReadLine(buffer: string)
      modifies `papp, `iinst, `base, `state
      ensures Results(papp, iinst, base, state) == Accept(old(Results(papp, iinst, base, state)), buffer)
    {
      if "BASE" <= buffer && |buffer| >= 14 {
        base := Atoi(buffer[5..14]);
        state := state | BASE_DONE;
      } else if "PAPP" <= buffer && |buffer| >= 10 {
        papp := Int16(Atoi(buffer[5..10]));
        state := state | PAPP_DONE;
      } else if "IINST" <= buffer && |buffer| >= 9 {
        iinst := Int16(Atoi(buffer[6..9]));
        state := state | IINST_DONE;
      }
    }

    method CheckLine()
      requires Valid() && thread.Parsing?
      modifies this
      ensures Took(Thread)
    {
      Record(Thread);
      ReadLine(thread.line);
      thread := if state == BASE_DONE | PAPP_DONE | IINST_DONE then Building else Receiving;
    }

    /** The results are cleared for the next report. */
    method ClearResults()
      modifies `papp, `iinst, `base, `state
      ensures Results(papp, iinst, base, state) == CLEARED
    {
      state := 0;
      papp := 0;
      base := 0;
      iinst := 0;
    }

    method BuildReport()
      requires Valid() && thread.Building?
      modifies this
      ensures Took(Thread)
    {
      Record(Thread);
      var made := Made(rxTeleinfo, Report(papp, base, iinst));
      ClearResults();
      thread := Sending(Message(buffers, made));
      log := log.(made := log.made + [made]);
      buffers := buffers + 1;
    }

    /** The queue of main has room: ProtocolSafety proves it, so msg_send never blocks. */
    method MsgSend()
      requires Valid() && thread.Sending?
      modifies this
      ensures Took(Thread)
      ensures queue == old(queue) + [old(thread).msg]
    {
      ProtocolSafety(history);
      Record(Thread);
      queue := queue + [thread.msg];
      thread := Clearing;
      log := log.(reported := log.reported + 1);
    }

    method StopReception()
      requires Valid() && thread.Clearing?
      modifies this
      ensures Took(Thread)
    {
      Record(Thread);
      rxTeleinfo := 0;
      thread := Parking;
    }

    method ThreadSleep()
      requires Valid() && thread.Parking?
      modifies this
      ensures Took(Thread)
    {
      Record(Thread);
      thread := Asleep;
    }

    // ---- main

    /** teleinfo_enable_rx, up to the call of thread_wakeup */
    method EnableRx()
      requires Valid() && main.Enabling?
      modifies this
      ensures Took(Main)
    {
      Record(Main);
      var curtel := main.meter;
      rxTeleinfo := curtel;
      main := Waking(curtel);
      log := log.(enabled := log.enabled + 1, earlier := log.reported);
    }

    method ThreadWakeup()
      requires Valid() && main.Waking?
      modifies this
      ensures Took(Main)
    {
      Record(Main);
      if thread.Asleep? { thread := Receiving; }
      main := Listening(main.meter);
    }

    /** teleinfo_disable_rx, and on to the next meter or to the drain loop */
    method DisableRx()
      requires Valid() && main.Listening?
      modifies this
      ensures Took(Main)
    {
      Record(Main);
      rxTeleinfo := 0;
      main := if main.meter < 2 then Enabling(main.meter + 1) else Draining;
    }

    method MsgTryReceive()
      requires Valid() && main.Draining?
      modifies this
      ensures Took(Main)
    {
      Record(Main);
      if queue == [] {
        main := Enabling(1);
      } else {
        main := Transmitting(queue[0]);
        queue := queue[1..];
      }
    }

    method DataTx() returns (data: string)
      requires Valid() && main.Transmitting?
      modifies this
      ensures data == BufferText(old(main).msg)
      ensures Took(Main)
    {
      data := BufferText(main.msg);
      Record(Main);
      log := log.(transmitted := log.transmitted + [main.msg]);
      main := Freeing(main.msg);
    }

    method Free()
      requires Valid() && main.Freeing?
      modifies this
      ensures Took(Main)
    {
      Record(Main);
      log := log.(freed := log.freed + [main.msg]);
      main := Draining;
    }
  }
}
