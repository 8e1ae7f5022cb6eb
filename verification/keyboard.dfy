/** The keyboard handle: key-state store, running flag, last loop error and
    notification channel, with its lifecycle and queries. The reader
    goroutine is the method `RunReader`, run in one sequential interleaving
    with the foreground calls. */
module Kbd {
  import opened Outcomes
  import opened Events
  import opened KeyState
  import opened Mailbox
  import opened Reader
  import opened Bytes

  lemma AppendAssoc<T>(a: seq<T>, b: seq<T>, c: seq<T>)
    ensures (a + b) + c == a + (b + c)
  {
  }

  class Keyboard {
    /** Key code to "is down"; a missing entry means up. */
    var keys: KeyMap
    /** The flag the reader polls at the top of each pass. */
    var running: bool
    /** The error that ended the reader, if one did. */
    var err: Option<Error>
    /** The notification channel; `None` until the first `Start`. */
    var events: Option<Channel>
    /** A reader started by `Start` has not yet left its loop. */
    var readerAlive: bool
    /** Everything the reader has done to the store and the channel, in order. */
    ghost var trace: seq<Action>

    ghost predicate Valid()
      reads this
    {
      && (events.Some? ==> events.value.capacity == 0 && Mailbox.Valid(events.value))
      && (readerAlive ==> events.Some? && !events.value.closed)
    }

    /** A handle as `Open` builds it once the device and terminal are open:
        empty store, not running. */
    constructor ()
      ensures Valid()
      ensures keys == map[] && !running && err == None && events == None && !readerAlive
      ensures trace == []
    {
      keys := map[];
      running := false;
      err := None;
      events := None;
      readerAlive := false;
      trace := [];
    }

    /** `Start`, given what entering cbreak mode returns. On failure it returns
        that error and changes nothing; otherwise it makes a fresh unbuffered
        channel, sets `running` and launches the reader. */
    method Start(cbreak: Option<Error>) returns (e: Option<Error>)
      requires Valid()
      modifies this
      ensures Valid()
      ensures e == cbreak
      ensures cbreak.Some? ==>
        running == old(running) && events == old(events) && readerAlive == old(readerAlive)
      ensures cbreak.None? ==> running && events == Some(Unbuffered()) && readerAlive
      ensures keys == old(keys) && err == old(err) && trace == old(trace)
    {
      if cbreak.Some? {
        return cbreak;
      }
      running := true;
      events := Some(Unbuffered());
      readerAlive := true;
      e := None;
    }

    /** `Stop`, given what restoring the terminal returns: it clears `running`
        whatever the restore returned, and returns that result. */
    method Stop(restore: Option<Error>) returns (e: Option<Error>)
      requires Valid()
      modifies this
      ensures Valid()
      ensures e == restore && !running
      ensures keys == old(keys) && err == old(err) && events == old(events)
      ensures readerAlive == old(readerAlive) && trace == old(trace)
    {
      e := restore;
      running := false;
    }

    /** `Close`, given what restoring the terminal, closing the device file and
        closing the terminal return: it stops, and returns only the result of
        closing the terminal. */
    method Close(restore: Option<Error>, fileClose: Option<Error>, ttyClose: Option<Error>)
      returns (e: Option<Error>)
      requires Valid()
      modifies this
      ensures Valid()
      ensures e == ttyClose && !running
      ensures keys == old(keys) && err == old(err) && events == old(events)
      ensures readerAlive == old(readerAlive) && trace == old(trace)
    {
      e := Stop(restore);
      e := fileClose;
      e := ttyClose;
    }

    /** The error that ended the reader, `None` if none has. */
    method Err() returns (e: Option<Error>)
      ensures e == err
    {
      e := err;
    }

    /** Whether key `k` is down; `false` for a key never written. */
    method IsDown(k: KeyCode) returns (down: bool)
      ensures down == Lookup(keys, k)
    {
      down := if k in keys then keys[k] else false;
    }

    /** The body of one pass for a decoded record: for a key record that is not
        a repeat, write the store, then drain the channel and try to send the
        code, neither of which blocks. */
    method HandleRecord(ev: InputEvent, consumerWaiting: bool)
      requires Valid() && events.Some? && !events.value.closed
      modifies this
      ensures Valid()
      ensures var s := Step(old(keys), old(events).value, ev, consumerWaiting);
        keys == s.keys && events == Some(s.chan) && trace == old(trace) + s.actions
      ensures running == old(running) && err == old(err) && readerAlive == old(readerAlive)
    {
      if ev.kind == EventKey {
        if ev.value != Repeat {
          keys := keys[ev.code := ev.value == Press];
          trace := trace + [SetKey(ev.code, ev.value == Press)];
          var drained := Drain(events.value);
          var sent := TrySend(drained, ev.code, consumerWaiting);
          events := Some(sent.chan);
          trace := trace + [Notify(ev.code, sent.outcome)];
        }
      }
    }

    /** One pass of the loop body: read a record (a failed read ends the pass
        with its error), handle it, then flush and end with the flush's result. */
    method ReadPass(it: Iteration) returns (passErr: Option<Error>)
      requires Valid() && events.Some? && events.value.capacity == 0 && !events.value.closed
      modifies this
      ensures Valid()
      ensures var p := Pass(old(keys), old(events).value, it);
        keys == p.keys && trace == old(trace) + p.actions && passErr == p.err
      ensures events == old(events) && running == old(running) && err == old(err)
      ensures readerAlive == old(readerAlive)
    {
      var read := ReadEvent(it.read);
      if read.Failure? {
        return Some(read.error);
      }
      HandleRecord(read.value, it.consumerWaiting);
      passErr := it.flush;
    }

    /** The loop of the reader goroutine while `running` holds: pass after
        pass until one ends with an error or `script` (what the reads and
        flushes return) runs out. */
    method ReadLoop(script: seq<Iteration>) returns (loopErr: Option<Error>)
      requires Valid() && readerAlive && running
      modifies this
      ensures Valid() && readerAlive && running && events == old(events) && err == old(err)
      ensures var r := Loop(old(keys), old(events).value, script);
        keys == r.keys && trace == old(trace) + r.trace && loopErr == r.err
    {
      ghost var ch := events.value;
      ghost var r := Loop(keys, ch, script);
      ghost var done: seq<Action> := [];
      ghost var trace0 := trace;
      loopErr := None;
      var i := 0;
      while running && loopErr.None? && i < |script|
        invariant 0 <= i <= |script|
        invariant Valid() && readerAlive && running && events == Some(ch) && err == old(err)
        invariant trace == trace0 + done
        invariant loopErr.None? ==>
          var rest := Loop(keys, ch, script[i..]);
          r.keys == rest.keys && r.err == rest.err && r.trace == done + rest.trace
        invariant loopErr.Some? ==> r.keys == keys && r.err == loopErr && r.trace == done
      {
        ghost var p := Pass(keys, ch, script[i]);
        ghost var rest := Loop(keys, ch, script[i..]);
        assert script[i..][0] == script[i] && script[i..][1..] == script[i + 1..];
        ghost var before := trace;
        loopErr := ReadPass(script[i]);
        assert trace == before + p.actions;
        AppendAssoc(trace0, done, p.actions);
        if loopErr.None? {
          AppendAssoc(done, p.actions, Loop(keys, ch, script[i + 1..]).trace);
        }
        done := done + p.actions;
        i := i + 1;
      }
    }

    /** The reader goroutine, run over `script` until it leaves the loop or
        the script runs out, in which case it is still blocked in a read and
        may be resumed by another call. It leaves the loop at the top of a
        pass once `running` is false or the last pass ended with an error; on
        leaving it closes the channel, and after an error it stops (with
        `exitRestore` as the restore's result) and records the error. */
    method RunReader(script: seq<Iteration>, exitRestore: Option<Error>)
      requires Valid() && readerAlive
      modifies this
      ensures Valid()
      ensures var ch := old(events).value;
        if !old(running) then
          && keys == old(keys) && trace == old(trace) && err == old(err)
          && !running && !readerAlive && events == Some(ch.(closed := true))
        else
          var r := Loop(old(keys), ch, script);
          && keys == r.keys && trace == old(trace) + r.trace
          && (r.err.Some? ==>
                !running && err == r.err && !readerAlive && events == Some(ch.(closed := true)))
          && (r.err.None? ==>
                running && err == old(err) && readerAlive && events == Some(ch))
    {
      var loopErr: Option<Error> := None;
      if running {
        loopErr := ReadLoop(script);
      }
      if !running || loopErr.Some? {
        events := Some(events.value.(closed := true));
        readerAlive := false;
        if loopErr.Some? {
          var _ := Stop(exitRestore);
          err := loopErr;
        }
      }
    }
  }

  /** A record for key `code` with value `value`, as the device delivers it. */
  function KeyRecord(t: Timeval, code: KeyCode, value: u32): (it: Iteration)
    ensures ReadEvent(it.read) == Success(InputEvent(t, EventKey, code, value))
    ensures it.flush == None && !it.consumerWaiting
  {
    var e := InputEvent(t, EventKey, code, value);
    DecodeEncode(e);
    assert Encode(e)[..RecordSize] == Encode(e);
    Iteration(Data(Encode(e)), false, None)
  }

  /** The loop over one such record, with no consumer waiting. */
  lemma OneRecordLoop(keys: KeyMap, ch: Channel, t: Timeval, code: KeyCode, value: u32)
    requires ch.capacity == 0 && Mailbox.Valid(ch) && !ch.closed
    ensures var r := Loop(keys, ch, [KeyRecord(t, code, value)]);
      && r.err == None
      && r.keys == Apply(keys, InputEvent(t, EventKey, code, value))
      && r.trace == if value == Repeat then [] else [SetKey(code, value == Press), Notify(code, Dropped)]
  {
  }

  /** Press, repeat, then release key A (code 30), with no consumer waiting:
      the key reads down, still down, then up, and two notification attempts
      are made (for the press and the release), both dropped. */
  method PressRepeatRelease(t: Timeval)
  {
    var kb := new Keyboard();
    var e := kb.Start(None);
    ghost var ch := kb.events.value;

    OneRecordLoop(kb.keys, ch, t, 30, Press);
    kb.RunReader([KeyRecord(t, 30, Press)], None);
    var down := kb.IsDown(30);
    assert down;
    assert kb.trace == [SetKey(30, true), Notify(30, Dropped)];
    OneRecordLoop(kb.keys, ch, t, 30, Repeat);
    kb.RunReader([KeyRecord(t, 30, Repeat)], None);
    down := kb.IsDown(30);
    assert down;
    ghost var before := kb.trace;
    assert before == [SetKey(30, true), Notify(30, Dropped)];
    OneRecordLoop(kb.keys, ch, t, 30, Release);
    kb.RunReader([KeyRecord(t, 30, Release)], None);
    down := kb.IsDown(30);
    assert !down;
    assert kb.trace == before + [SetKey(30, false), Notify(30, Dropped)];
  }

  /** A press, then a foreground `Stop` twice (the second restore failing):
      the reader leaves its loop at its next check without reading the next
      record, closes the channel, and records no error; the key still reads
      down, since the store is never cleared. */
  method StopTwice(t: Timeval)
  {
    var kb := new Keyboard();
    var e := kb.Start(None);
    ghost var ch := kb.events.value;
    OneRecordLoop(kb.keys, ch, t, 30, Press);
    kb.RunReader([KeyRecord(t, 30, Press)], None);

    e := kb.Stop(None);
    e := kb.Stop(Some(OsError(5)));
    assert !kb.running && kb.readerAlive;
    kb.RunReader([KeyRecord(t, 30, Release)], None);
    assert !kb.readerAlive && kb.events == Some(ch.(closed := true));
    var loopErr := kb.Err();
    assert loopErr == None;
    var down := kb.IsDown(30);
    assert down;
  }

  /** A device error on the first read ends the reader: the record after it
      is never read, the channel is closed, `running` is cleared and `Err`
      returns that error. */
  method ReadErrorEnds(t: Timeval)
  {
    var kb := new Keyboard();
    var e := kb.Start(None);
    ghost var ch := kb.events.value;
    var script := [Iteration(ReadFailed(OsError(19)), false, None), KeyRecord(t, 30, Press)];
    assert Loop(kb.keys, ch, script).err == Some(OsError(19));
    kb.RunReader(script, Some(OsError(5)));
    assert !kb.running && !kb.readerAlive && kb.events == Some(ch.(closed := true));
    var loopErr := kb.Err();
    assert loopErr == Some(OsError(19));
    var down := kb.IsDown(30);
    assert !down;
  }
}
